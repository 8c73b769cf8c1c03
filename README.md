# TgSpyBot core, modelled in Dafny

TgSpyBot watches a list of public Telegram chats for messages that contain
any of a set of keywords. It hands every match to a list of notification
handlers. The handlers print it to the console, append it to a log file,
save it to a database, or send it to the admin through a control bot. The
control bot is a password-gated command interface. Through it the admin
adds and removes chats, replaces the keyword set and reads a status
summary.

This project models the parts of that system that make decisions:

- **Text**: the Python string operations the program relies on.
  - `str.isspace`, `strip`, `lower` (Latin and Cyrillic), `split(",")`,
    `join`, `in`, `replace`;
  - the cut-at-N-characters-and-append-"..." truncation.
- **Keywords** and **Settings**: how keyword lists are normalised. The
  parser's setter, the settings validator and the `/setkeywords` command
  share this. Also the substring matcher over a message text.
- **Links**: turning a chat link into a username.
  - Three regular expressions are tried in a fixed order.
  - Two fallbacks follow if none matches.
- **Parser**: the `TelegramParser` object, as a class.
  - Its state is the ordered chat registry, the per-chat watermarks
    ("last check time"), the keywords and the registered handlers.
  - The poll step filters a fetched batch of messages and dispatches each
    match to every handler. A polling pass runs that step over every chat.
  - Each step is proved against a specification function. Lemmas about
    those functions state what the code guarantees:
    - only fresh, non-empty, matching messages reach a handler;
    - every such message reaches every handler;
    - after a completed poll, the next poll of that chat hands out only
      messages dated after it;
    - a failing chat does not stop the others;
    - a polling pass does not move a watermark back when the clock does
      not. Re-adding a monitored chat does move it back (see below).
- **Notifications**: the console notice, the log-file line and the two
  stateful handlers (file and database).
- **Bot**: the access gate, the password exchange, and the
  `/start`, `/addchat`, `/removechat`, `/setkeywords` and `/status`
  commands. Also the Markdown notification text and the restore at start-up.
- **Security**: masking a secret for logs and the default output paths of
  file encryption and decryption.

The platform is a set of parameters:

- resolving a username is a function `string -> Option<Entity>`;
- a fetch is a `FetchOutcome`;
- the clock is an integer number of seconds;
- whether a handler raises on a message is a function of the handler and
  the message.

Storage writes are recorded in a log of `StorageWrite` values.

Notes on what the code does:

- The chat-count limit is checked by the `/addchat` command
  (`app/bot/telegram_bot.py:175-181`), not by the registry: `AddChat` adds
  past the limit.
- `_check_all_chats` sleeps on a flood-wait error
  (`app/parser/telegram_parser.py:141-143`), but `_check_chat_messages`
  catches every exception of its own fetch first (lines 172-173). The
  sleep is therefore never reached from a fetch, and the model treats
  every fetch error alike: it is logged and the pass moves on.
- A chat's watermark advances only when its poll step completes. After a
  failed fetch it stays where it was.
- A polling pass never moves a watermark back as long as the clock does
  not (`WatermarksNeverDecrease`). Adding a chat, however, always sets its
  watermark to five minutes before now (line 83), and `/addchat` does not
  check whether the chat is already monitored, although its failure reply
  names an already added chat as a possible cause
  (`app/bot/telegram_bot.py:205`). Re-adding a chat polled less
  than five minutes ago therefore moves its watermark back, and the next
  poll hands out again the matching messages of that window
  (`ReAddRedelivers`).
- Chats restored at start-up have no watermark. Removing one of them deletes
  its registry entry and then raises, so the bot sends no reply and saves
  nothing (`RemoveOutcome.MissingWatermark`, `RemoveChatReply.Crashed`).

## Model

| member | source | states |
|---|---|---|
| Text.Truncate | app/utils/notification_handler.py:33-36 | a text of at most `limit` characters is kept; a longer one becomes its first `limit` characters followed by "...", so its length is `limit + 3` |
| Text.TruncateFixedIff | app/utils/notification_handler.py:35-36 | truncation leaves a text unchanged exactly when it is within the limit or already is `limit` characters plus "..." |
| Text.SplitJoin | app/utils/notification_handler.py:78 | joining a non-empty list of pieces that hold no separator, then splitting at the separator, gives the pieces back |
| Keywords.NormalizeKeywordIsNormal | app/parser/telegram_parser.py:105 | a non-blank entry, stripped and lower-cased, is non-empty, has no edge whitespace and no upper-case letter |
| Keywords.NormalKeywordIsFixed | app/parser/telegram_parser.py:105 | a keyword in normal form is not blank and normalises to itself |
| Keywords.NormalizeKeywordsNormal | app/parser/telegram_parser.py:105 | every keyword the setter stores is in normal form |
| Keywords.NormalizeKeywordsMembers | app/parser/telegram_parser.py:105 | every stored keyword is the normal form of a non-blank input entry, and every non-blank entry's normal form is stored |
| Keywords.NormalizeKeywordsAppend | app/parser/telegram_parser.py:105 | normalising a concatenation is normalising each part in turn: input order is kept |
| Keywords.NormalizeKeywordsSingle | app/parser/telegram_parser.py:105 | one entry is kept, normalised, exactly when it is not blank |
| Keywords.NormalizeKeywordsFixed | app/parser/telegram_parser.py:105 | a list already in normal form is stored unchanged |
| Keywords.NormalizeKeywordsIdempotent | app/parser/telegram_parser.py:105 | setting the keywords from a stored keyword list changes nothing |
| Keywords.NormalizeKeywords | app/parser/telegram_parser.py:105 | at most one keyword per entry; their form, membership and order are stated by `NormalizeKeywordsNormal`, `NormalizeKeywordsMembers` and `NormalizeKeywordsAppend` |
| Keywords.MatchingKeywords | app/parser/telegram_parser.py:206-213 | at most one match per keyword; membership and order are stated by `MatchingKeywordsMembers` and `MatchingKeywordsAppend` |
| Keywords.MessageMatches | app/parser/telegram_parser.py:175-184 | a text passes the filter exactly when it is non-empty and the matcher reports at least one keyword for it |
| Keywords.MatchingKeywordsMembers | app/parser/telegram_parser.py:206-213 | a keyword is reported exactly when it is in the list and occurs in the lower-cased text |
| Keywords.MatchingKeywordsAppend | app/parser/telegram_parser.py:206-213 | matches are reported in keyword-list order |
| Keywords.MatchingKeywordsSingle | app/parser/telegram_parser.py:210-212 | a single keyword is reported exactly when it occurs in the lower-cased text |
| Keywords.MessageMatchesIffFound | app/parser/telegram_parser.py:175-184 | the filter rejects an empty text; for any other text it passes exactly when the matcher finds at least one keyword |
| Settings.ParseKeywords | app/config/settings.py:43-48 | an empty option gives no keywords; there are at most one more keywords than commas; each is in normal form |
| Settings.ParseKeywordsIsNormalizedSplit | app/config/settings.py:43-48 | the validator is the setter's normalisation applied to the comma-separated pieces, the empty option included |
| Settings.ParseKeywordsPieces | app/config/settings.py:48 | each keyword is a non-blank piece, stripped and lower-cased, and every such piece is kept |
| Settings.ParseKeywordsSingle | app/config/settings.py:48 | an option without a comma that is not blank gives exactly its own normal form |
| Links.WordRun | app/parser/telegram_parser.py:218-220 | the greedy `[a-zA-Z0-9_]*` group: a prefix of word characters not followed by one |
| Links.FindMatch | app/parser/telegram_parser.py:224 | `re.search`: a match position at or after the start with none before it, or no match anywhere |
| Links.SearchGroup | app/parser/telegram_parser.py:224-226 | a found group is a non-empty run of word characters |
| Links.ExtractUsername | app/parser/telegram_parser.py:215-234 | a link that starts with `@` always yields a username, and a link without a username holds `/` or `@` |
| Links.NoMatchWithout | app/parser/telegram_parser.py:217-226 | a pattern whose literal holds a character missing from the link never matches |
| Links.PlainNameUnchanged | app/parser/telegram_parser.py:231-232 | a link with neither `/` nor `@` is its own username |
| Links.WordUnchanged | app/parser/telegram_parser.py:215-234 | a username made of word characters normalises to itself |
| Links.PatternResultIsFixed | app/parser/telegram_parser.py:223-226 | a username found by a pattern is non-empty and extracting again gives the same username |
| Links.UnmatchedLinkHasNoUsername | app/parser/telegram_parser.py:228-234 | without a pattern match and without a leading `@`, there is no username exactly when the link holds `/` or `@` |
| Links.BareAtIsEmpty | app/parser/telegram_parser.py:229-230 | the link "@" yields the empty username |
| Links.PriorityIsByPattern | app/parser/telegram_parser.py:217-226 | the `t.me/` pattern wins over an `@` handle that stands earlier in the link |
| Parser.Without | app/parser/telegram_parser.py:97 | deleting a key from the insertion order keeps every other key, keeps them distinct and shortens the order by one |
| Parser.Watermark | app/parser/telegram_parser.py:151 | the stored watermark when there is one, otherwise a time five minutes before the clock reading |
| Parser.BuildMessageData | app/parser/telegram_parser.py:188-197 | the found keywords are the matcher's list for the text: exactly the list's keywords that occur in it, in list order, non-empty exactly when the filter passes a non-empty text; a sender id of 0 becomes none and any other sender is kept; title, username and link come from the chat, and text, id and date from the message |
| Parser.Selected | app/parser/telegram_parser.py:160-163 | at most the batch's messages; which ones and in what order is stated by `SelectedMembers` and `SelectedAppend` |
| Parser.Chronological | app/parser/telegram_parser.py:161 | the newest-first batch is walked in reverse order |
| Parser.Dispatch | app/parser/telegram_parser.py:199-204 | one call per handler, in registration order, each with the same record, whether or not an earlier handler raised |
| Parser.PollDeliveries | app/parser/telegram_parser.py:160-165 | one handler call per selected message per handler, and none without handlers |
| Parser.Advance | app/parser/telegram_parser.py:134-167 | key bounds only: every chat that had a watermark keeps one, and only chats of the pass gain one; which ones and the watermark values are stated by `AdvanceResult` and `AdvanceElsewhere` |
| Parser.PassDeliveries | app/parser/telegram_parser.py:134-145 | no contract of its own: the calls of a pass are stated by `PassDeliveriesAppend`, `FailedChatIsSkipped` and `AllFailedPassIsEmpty` |
| Parser.DispatchAll | app/parser/telegram_parser.py:161-164 | one handler call per selected message per handler |
| Parser.AddTarget | app/parser/telegram_parser.py:56-70 | an add succeeds exactly when the link yields a non-empty username that resolves; the result is that username and its entity |
| Parser.Snapshot | app/parser/telegram_parser.py:253-255 | the registry as pairs in key order, each pair the key and its entry |
| Parser.EntryKeys | app/bot/telegram_bot.py:455-457 | the keys of a saved dictionary, in its order |
| Parser.EntryMap | app/bot/telegram_bot.py:455-457 | the restored dictionary has exactly the saved keys |
| Parser.SaveThenLoad | app/bot/telegram_bot.py:445-461 | restoring what the bot saved gives the same usernames in the same order and the same entries |
| Parser.LoadThenSave | app/bot/telegram_bot.py:445-461 | the registry snapshot after a restore is the saved list itself |
| Parser.TelegramParser.constructor | app/parser/telegram_parser.py:20-26 | no chats, no watermarks and no handlers; the keywords are the keyword setting as the validator parses it |
| Parser.TelegramParser.ChatCount | app/parser/telegram_parser.py:253-255 | the number of chats equals the number of registry entries and of keys in the insertion order |
| Parser.TelegramParser.GetMonitoredChats | app/parser/telegram_parser.py:253-255 | the copy has one pair per registry entry, each pair matches its entry, every entry appears, and usernames are distinct |
| Parser.TelegramParser.GetChatInfo | app/parser/telegram_parser.py:247-251 | the entry is returned exactly when the username is monitored |
| Parser.TelegramParser.AddChat | app/parser/telegram_parser.py:56-90 | success exactly when the username is found and resolves. On success the entry is written or replaced (title, else first name, else username), the watermark is set five minutes back, and a new username is appended to the order. On failure nothing changes |
| Parser.TelegramParser.RemoveChat | app/parser/telegram_parser.py:92-101 | not-monitored exactly when the link gives no monitored username, and then nothing changes. Otherwise the entry and the key are gone, and the watermark is gone too unless it was missing, in which case the removal raises |
| Parser.TelegramParser.SetKeywords | app/parser/telegram_parser.py:103-106 | the keywords become the normalised list; the registry, watermarks and handlers are unchanged |
| Parser.TelegramParser.AddMessageHandler | app/parser/telegram_parser.py:108-110 | the handler is appended after the existing ones and nothing else changes |
| Parser.TelegramParser.CheckMessageKeywords | app/parser/telegram_parser.py:175-184 | the filter: false without keywords or text, otherwise true exactly when some keyword occurs in the lower-cased text |
| Parser.TelegramParser.FindMatchingKeywords | app/parser/telegram_parser.py:206-213 | the keywords found in the text, in list order |
| Parser.TelegramParser.HandleFoundMessage | app/parser/telegram_parser.py:186-204 | every handler in order receives the record: the chat's title, username and link; the message's text, id and date; a sender id of 0 as none; the found keywords |
| Parser.TelegramParser.ScanBatch | app/parser/telegram_parser.py:160-165 | the handler calls are those of the oldest-first walk that dispatches each qualifying message, and the count is the number of qualifying messages |
| Parser.TelegramParser.CheckChatMessages | app/parser/telegram_parser.py:147-173 | a failed fetch changes nothing and calls no handler. A completed one dispatches against the stored watermark (else five minutes back) and then sets the watermark to the clock |
| Parser.TelegramParser.CheckAllChats | app/parser/telegram_parser.py:134-145 | every chat in registry order gets its step. The calls are the pass's calls and the watermarks are those the pass advances. The registry, keywords and handlers are unchanged |
| Parser.SelectedMembers | app/parser/telegram_parser.py:161-163 | a message is dispatched exactly when it is in the batch, newer than the watermark, has text and matches |
| Parser.SelectedAppend | app/parser/telegram_parser.py:161 | selection keeps chronological order |
| Parser.DispatchAllMembers | app/parser/telegram_parser.py:161-164 | every call goes to a registered handler, with the record of one of the messages |
| Parser.DispatchAllAt | app/parser/telegram_parser.py:161-164 | message-major order: call `k·n + j` hands message `k` to handler `j` |
| Parser.PollDeliversOnlyFresh | app/parser/telegram_parser.py:161-164 | every call of a step carries a message newer than the watermark, with text and at least one found keyword, from this chat, to a registered handler |
| Parser.PollDeliversEveryMatch | app/parser/telegram_parser.py:161-164 | every qualifying message of the batch reaches every handler |
| Parser.NoRedelivery | app/parser/telegram_parser.py:151-167 | after a completed step at time `now`, the next step reads `now` as watermark and hands out only messages dated after it |
| Parser.AdvanceElsewhere | app/parser/telegram_parser.py:134-145 | a pass leaves the watermarks of chats outside the pass untouched |
| Parser.ChatDeliveries | app/parser/telegram_parser.py:172-173 | a chat whose fetch failed contributes no handler call to the pass |
| Parser.PassDeliveriesAppend | app/parser/telegram_parser.py:136-138 | the calls of a pass are those of each chat in turn, in registry order |
| Parser.FailedChatIsSkipped | app/parser/telegram_parser.py:136-145 | a chat whose fetch fails contributes no call and does not stop the chats after it |
| Parser.AllFailedPassIsEmpty | app/parser/telegram_parser.py:134-145 | a pass in which every fetch fails makes no handler call |
| Parser.AdvanceResult | app/parser/telegram_parser.py:134-167 | after a pass, a chat whose fetch completed has its clock reading as watermark, and every other watermark is as before |
| Parser.WatermarksNeverDecrease | app/parser/telegram_parser.py:151-167 | in a polling pass whose clock readings are not earlier than the stored watermarks, no watermark moves back (adding a chat is not part of a pass) |
| Parser.ReAddRedelivers | app/parser/telegram_parser.py:83 | re-adding a monitored chat moves its watermark back to five minutes before now, so a matching message of that window that the old watermark covered is handed out again by the next poll |
| Parser.SaleMentionsBtc | app/parser/telegram_parser.py:180-183 | "btc" occurs in the lower-cased "I sell BTC now" |
| Parser.GreetingLacksBtc | app/parser/telegram_parser.py:180-184 | "btc" does not occur in "hello" |
| Parser.SingleMatchScenario | app/parser/telegram_parser.py:160-164 | of two fresh messages only the one mentioning the keyword is selected, and its found keywords are ["btc"] |
| Notifications.FormatNotification | app/utils/notification_handler.py:30-50 | the notice starts with its title and contains the message line with the text cut at 200 characters, and the keyword line joined with ", " |
| Notifications.ConsoleOutput | app/utils/notification_handler.py:13-22 | three prints: a 50-character rule, the notice, a 50-character rule |
| Notifications.LogMessageField | app/utils/notification_handler.py:79 | the text with each newline made a space: same length, a space where each newline was, no newline left, every other character kept |
| Notifications.FormatLogEntry | app/utils/notification_handler.py:73-79 | the log line opens with the bracketed time, the chat's title and `@`username, contains the found keywords joined with "," in their order, and ends with the message field |
| Notifications.LogEntryIsOneLine | app/utils/notification_handler.py:73-79 | without a newline in the timestamp, chat names or keywords, a log entry holds no newline |
| Notifications.LogKeywordsRoundTrip | app/utils/notification_handler.py:78 | the keywords field splits back into the found keywords when none holds a comma |
| Notifications.FileSink.constructor | app/utils/notification_handler.py:56-57 | the handler only names the file: the log keeps whatever it already holds |
| Notifications.FileSink.HandleFoundMessage | app/utils/notification_handler.py:59-71 | a successful write appends the log line and a newline; a failed one changes nothing and does not propagate |
| Notifications.DatabaseSink.constructor | app/utils/notification_handler.py:85-88 | not initialised; the storage keeps the messages it already holds |
| Notifications.DatabaseSink.HandleFoundMessage | app/utils/notification_handler.py:90-104 | initialisation is attempted exactly while not initialised. The save is attempted only once initialised, and the message is saved exactly when initialised and the save succeeds |
| Security.SliceTo | app/utils/security.py:229 | Python's `s[:k]` for every integer `k` |
| Security.SliceFrom | app/utils/security.py:230 | Python's `s[k:]` for every integer `k` |
| Security.MaskSensitiveData | app/utils/security.py:224-233 | a short secret becomes one mask per character; with a one-character mask the length is kept when at least one character is visible, and doubled when none is |
| Security.MaskShortRevealsNothing | app/utils/security.py:226-227 | a secret of at most twice the visible count comes out as mask only, one per character |
| Security.MaskKeepsEnds | app/utils/security.py:229-233 | a longer secret keeps its first and last `visible` characters, masks the rest and keeps its length |
| Security.MaskKeepsLength | app/utils/security.py:224-233 | with at least one visible character, masking keeps the length |
| Security.MaskZeroRevealsAll | app/utils/security.py:230 | with no visible characters, masking prints the mask and then the whole secret |
| Security.MaskZeroExample | app/utils/security.py:230 | "secret" with no visible characters becomes "******secret" |
| Security.MaskCorrectedRevealsOnlyEnds | app/utils/security.py:224-233 | the corrected masking keeps the length, reveals nothing of a short secret, and only the `visible` characters at each end of a long one |
| Security.MaskSensitiveDataCorrected | app/utils/security.py:224-233 | a short secret becomes one mask per character; with a one-character mask the length is always kept |
| Security.MaskCorrectedAgreesFromOne | app/utils/security.py:229-230 | with at least one visible character the corrected and the written masking agree |
| Security.EncryptDefaultPath | app/utils/security.py:116-117 | the default encrypted path is the path followed by ".encrypted" |
| Security.DecryptDefaultPath | app/utils/security.py:147-148 | removing every ".encrypted" never lengthens the path |
| Security.RemoveAllAppended | app/utils/security.py:148 | removing every ".encrypted" from a suffix-free path plus the suffix gives the path |
| Security.DefaultPathsRoundTrip | app/utils/security.py:147-148 | decrypting the default encrypted path of a path without ".encrypted" gives back the path |
| Bot.Gate | app/bot/telegram_bot.py:60-83 | a non-admin is refused. An authorised admin passes. An unauthorised admin is never refused outright, and passes exactly with `/start`, `/help` or while the password is awaited |
| Bot.TelegramBot.Admit | app/bot/telegram_bot.py:60-83 | with the bot's own admin, authorisations and conversation state: anyone but the admin is refused, the authorised admin passes, and the admin without a session passes exactly with `/start`, `/help` or while the password is awaited, and is asked for it otherwise |
| Bot.WordLength | app/bot/telegram_bot.py:160 | the first word: a run of non-blanks ended by a blank or the end |
| Bot.CommandArgument | app/bot/telegram_bot.py:160-162 | the argument after the command word, if any, is non-empty and starts with a non-blank |
| Bot.CommandArgumentOf | app/bot/telegram_bot.py:160-172 | a command word, a blank and an argument give exactly that argument |
| Bot.CommandArgumentNoneIff | app/bot/telegram_bot.py:160-170 | there is no argument exactly when only blanks follow the first word |
| Bot.KeywordArgument | app/bot/telegram_bot.py:299-300 | every keyword parsed from the command is in normal form |
| Bot.KeywordArgumentIsSettingParse | app/bot/telegram_bot.py:299-300 | the command parses its stripped argument as the settings validator parses the option |
| Bot.EscapeChar | app/bot/telegram_bot.py:402 | one `replace` adds one backslash per occurrence |
| Bot.EscapeMarkdown | app/bot/telegram_bot.py:402 | escaping never shortens the text, and a text without backquote, star or underscore is left as it is |
| Bot.EscapeMarkdownPerChar | app/bot/telegram_bot.py:402 | the three replacements escape each character on its own; no pass touches the backslashes an earlier one inserted |
| Bot.EscapeMarkdownLength | app/bot/telegram_bot.py:402 | the escaped text is longer by the number of backquotes, stars and underscores |
| Bot.EscapeMarkdownHead | app/bot/telegram_bot.py:402 | escaped text never starts with a special character |
| Bot.EscapeMarkdownRoundTrip | app/bot/telegram_bot.py:402 | the original text can be read back from the escaped one |
| Bot.NotificationBody | app/bot/telegram_bot.py:396-402 | the message part is the text cut at 300 characters and escaped: its length and its unescaped form are stated |
| Bot.FormatBotNotification | app/bot/telegram_bot.py:394-418 | the notification contains the escaped body in a code block and the keyword line joined with ", " |
| Bot.FirstChats | app/bot/telegram_bot.py:340-342 | the first three chats, or all when fewer, each as its title and username, in order |
| Bot.KeywordsHidden | app/bot/telegram_bot.py:350-353 | the status lists the first five keywords and counts the rest |
| Bot.TelegramBot.constructor | app/bot/telegram_bot.py:28-33 | the bot holds the parser and its settings, with nobody authorised |
| Bot.TelegramBot.LoadSavedData | app/bot/telegram_bot.py:445-461 | saved keywords, if any, go through the setter. Saved chats, if any, replace the registry so that its snapshot is the saved list. Watermarks and handlers are untouched |
| Bot.TelegramBot.CmdStart | app/bot/telegram_bot.py:85-100 | an authorised user is told so; anyone else is asked for the password and awaited |
| Bot.TelegramBot.HandlePassword | app/bot/telegram_bot.py:102-126 | accepted exactly when the stripped text is the password. Acceptance authorises the user; a refusal changes nothing; no authorisation is revoked |
| Bot.TelegramBot.CmdAddChat | app/bot/telegram_bot.py:158-208 | a missing link is refused, then a full registry (the reply naming the limit), both leaving everything unchanged. Otherwise the stripped link is added: it fails exactly when the link yields no resolvable username, and then nothing changes and nothing is saved; on success the chat is added, the registry snapshot is saved and the new total reported |
| Bot.TelegramBot.AddLink | app/bot/telegram_bot.py:185-208 | the add fails exactly when the link yields no resolvable username, and then nothing changes and nothing is saved; otherwise the chat is added, the snapshot saved and the new total reported |
| Bot.TelegramBot.CmdRemoveChat | app/bot/telegram_bot.py:210-243 | a missing link is refused. An unmonitored chat changes nothing. A removal deletes the chat, saves the snapshot and reports the remaining count. A chat without a watermark is deleted, and the command ends with no reply and no save |
| Bot.TelegramBot.RemoveLink | app/bot/telegram_bot.py:225-243 | an unmonitored chat changes nothing and saves nothing; a removal deletes the chat, saves the snapshot and reports the remaining count; a chat without a watermark is deleted with no reply and no save |
| Bot.TelegramBot.CmdSetKeywords | app/bot/telegram_bot.py:286-317 | a missing argument or one with no keyword changes nothing. Otherwise the parser and the storage receive the same list, which is what the parser then holds |
| Bot.TelegramBot.Status | app/bot/telegram_bot.py:319-357 | the counts, the limit and the interval; the first three chats in registry order with their titles and how many more; the first five keywords joined with ", " and how many more |

## Left out

- Network and platform I/O are parameters, not modelled code. This covers the Telegram client (`initialize`, `disconnect`, `get_entity`, `get_messages`), the bot framework (handler registration, replies, deleting the password message) and the Redis storage.
- The monitoring loop (`start_monitoring`, `stop_monitoring`, `is_running`) and every `asyncio.sleep` are left out, because they concern timing and concurrency. A polling pass is modelled as one call.
- The `offset_date` argument of the fetch is left out: which messages the platform returns for it is the platform's concern. The fetched batch is a parameter, newest first. The request's limit of 50 messages is the platform's to honour; the model does not bound the batch.
- Dates are integer seconds. `strftime` renderings are string parameters. The time-zone-aware message date compared with the local clock at `app/parser/telegram_parser.py:162` is not modelled.
- The two clock reads of a poll step (lines 151 and 167) are one reading, `now`.
- `_get_chat_type` is the `kind` field of an entity, because the `isinstance` tests belong to the client library. An attribute present but set to `None` is taken as absent.
- `Text.Lower` covers ASCII, Latin-1 and basic Cyrillic only. Full Unicode case mapping is not modelled.
- Bot.TelegramBot.Status: only the facts the status message shows are stated, not its Markdown rendering or the running flag. The texts of `/help`, `/listchats`, `/keywords` and unknown commands are fixed strings or renderings and are not modelled.
- `send_notification` (`app/bot/telegram_bot.py:366-392`) is a network send. Its text is `Bot.FormatBotNotification`.
- Bot.TelegramBot.LoadSavedData takes the saved chats as a list with distinct usernames, which is what a saved dictionary is. The JSON round trip of `added_at` in the storage is not modelled, and a failed load is an empty load.
- Encryption, decryption, key derivation, file hashing and session-file handling in `app/utils/security.py` are left out, because they are cryptography and file I/O. Only the string rules (masking and default paths) are modelled.
- Settings sources (environment, `.env`), the numeric defaults and the settings classes other than the parser's keyword option are left out: the bot takes its chat limit and polling interval as given.
- Logging is left out.
- A handler that raises is recorded in its `Delivery`. The logged message is not modelled.

## Findings

| source | as written | input that shows it | evidently intended | confidence | as-written member | corrected member |
|---|---|---|---|---|---|---|
| app/utils/security.py:230 | the last part is `data[-visible_chars:]`, and `-0` is `0` in Python | `mask_sensitive_data("secret", "*", 0)` returns `"******secret"`: the whole secret, after six stars | with no visible characters, nothing of the secret is shown (`data[len(data) - visible_chars:]`) | high; not executed | Security.MaskZeroExample | Security.MaskCorrectedRevealsOnlyEnds |
