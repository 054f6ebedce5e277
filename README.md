# OTP forwarder bot: a Dafny model of its deterministic core

`otp_bot.py` is a Telegram bot. It logs in to an SMS-relay web portal and scrapes the
messages the portal lists for the dates from yesterday to today (UTC). For each message it extracts a one-time
code and guesses the service. It then forwards every message it has not forwarded
before to a list of registered chats. Admins manage that list with chat commands.

This project models the logic inside that plumbing and proves properties of it:

- `Markdown`: the MarkdownV2 escaper `escape_markdown`.
- `Text`, `Classifier`: the classification of one scraped card, lifted out as
  functions of the group id, phone number and text. It computes the country, flag,
  service, code and dedupe id. `ClassifyCard` is the same block written as a method
  with the service loop.
- `Fetch`: the card loop of `fetch_sms_from_api`. It appends one record per card with a
  paragraph and returns an empty list as soon as anything raises.
- `Dispatch`: the dedupe and fan-out loop of `check_sms_job`, written as a
  specification function `FanOut` from the fetched messages, the destinations and
  the processed ids to the sequence of send attempts.
- `Store`: the two JSON state files as abstract file states (missing, corrupt,
  stored), with the fallbacks of `load_chat_ids` and `load_processed_ids`.
- `ChatList`: the list edits behind `/add_chat` and `/remove_chat`.
- `Bot`: class `OtpBot`. It holds the two file states, a ghost log of send
  attempts and a ghost log of processed-id saves. Its methods are the command
  handlers and `CheckSmsJob`, which uses nested loops as the source does.
- `Scenarios`: the example message "Your WhatsApp code is 482913", worked through.

Inputs that the source gets from the outside world become parameters:

- `hash: string -> int` is Python's per-process string hash.
- `net: (string, Message) -> bool` says which sends the platform accepts.
- `Portal` is the upstream's behaviour in one cycle: a request error, or the final
  login URL, whether the dashboard has the CSRF meta tag, and the scraped cards.

`load_chat_ids` creates a missing chat-id file holding the initial list but leaves
an unreadable one alone (otp_bot.py:50-58); `load_processed_ids` never writes.
`Store.ChatFileAfterLoad` models that. On both fallbacks `load_chat_ids` returns the
module-level `INITIAL_CHAT_IDS` list itself, so an `/add_chat` or `/remove_chat`
that follows edits that list in place; `OtpBot.initialChatIds` is a field that those
two commands update in exactly that case.

## Model

| member | source | states |
|---|---|---|
| `Markdown.IsReserved` | otp_bot.py:78 | Definition, no contract: the `escape_chars` set. |
| `Markdown.EscapeChar` | otp_bot.py:79 | Definition, no contract: the replacement applied to one character, a backslash before a reserved one. |
| `Markdown.Escape` | otp_bot.py:77-79 | Definition, no contract: a backslash before every reserved character, other characters copied. |
| `Markdown.EscapeAppend` | otp_bot.py:77-79 | Escaping distributes over concatenation. So each character is handled on its own: a reserved one becomes a backslash and itself, any other is copied. |
| `Markdown.EscapeLength` | otp_bot.py:77-79 | The output length is the input length plus the number of reserved characters. |
| `Markdown.UnescapeEscape` | otp_bot.py:77-79 | Dropping each inserted backslash gives back the input. |
| `Markdown.EscapeIsEscaped` | otp_bot.py:77-79 | Every output consists of backslash-reserved pairs and unreserved characters. |
| `Markdown.EscapeUnescape` | otp_bot.py:77-79 | Every well-escaped text is the escape of its unescaping, so the escaper is a bijection onto well-escaped texts. |
| `Markdown.EscapeIdentityIff` | otp_bot.py:77-79 | The output equals the input exactly when the input has no reserved character. |
| `Text.IsSpace` | otp_bot.py:172-174 | Definition, no contract: the ASCII whitespace of `str.strip()` and `str.split()` (space, `\t` to `\r`, `\x1c` to `\x1f`). |
| `Text.IsDigit` | otp_bot.py:181 | Definition, no contract: the class `\d` on ASCII. |
| `Text.IsWordChar` | otp_bot.py:181 | Definition, no contract: the class `\w` on ASCII, behind `\b`. |
| `Text.LowerChar` | otp_bot.py:176 | Definition, no contract: `str.lower` on one ASCII character. |
| `Text.Lower` | otp_bot.py:176 | Same length as the input; each capital becomes the letter at its position in the lower-case alphabet, no capital is left, and every other character is kept in place. |
| `Text.LowerIdempotent` | otp_bot.py:176 | Lowering twice is lowering once. |
| `Text.LowerSlice` | otp_bot.py:176 | Lowering commutes with slicing: a slice of the lowered text is the lowered slice. |
| `Text.IsSubstring` | otp_bot.py:178 | Definition, no contract: Python's `in` on strings, a start position from which the needle is a prefix (also used for line 241). |
| `Text.Strip` | otp_bot.py:172 | Definition, no contract: right trim of the left trim; the two trims' ensures give its meaning. |
| `Text.FirstToken` | otp_bot.py:174 | Definition, no contract: `None` when `split()` is empty, else the first token; `FirstTokenNoneIff`, `FirstTokenSplits` and `SplitsAsUnique` give its meaning. |
| `Text.TrimLeft` | otp_bot.py:172 | The result is a suffix of the input. What was dropped is all whitespace, and the result does not start with whitespace. |
| `Text.TrimRight` | otp_bot.py:172 | The result is a prefix of the input. What was dropped is all whitespace, and the result does not end with whitespace. |
| `Text.TakeToken` | otp_bot.py:174 | The result is the longest whitespace-free prefix. |
| `Text.TrimLeftSplits` | otp_bot.py:174 | A string is its dropped all-whitespace prefix followed by its left-trimmed rest. |
| `Text.TakeTokenSplits` | otp_bot.py:174 | A string starting with a token character is its non-empty first token, followed by nothing or by whitespace. |
| `Text.FirstTokenNoneIff` | otp_bot.py:174 | `split()` yields no token exactly when the string is all whitespace. |
| `Text.FirstTokenSplits` | otp_bot.py:174 | A token that is found is a first token: leading whitespace, then the token, then nothing or whitespace. |
| `Text.SplitsAsUnique` | otp_bot.py:174 | A string has at most one such split, so the first token is determined. |
| `Classifier.CountryOf` | otp_bot.py:174 | Definition, no contract: "Unknown Country" for an empty group id, else its first token, `None` where the index raises. |
| `Classifier.CountryOfSpec` | otp_bot.py:174 | An empty group id gives "Unknown Country". A non-empty one raises exactly when it is all whitespace, and otherwise gives its first token. |
| `Classifier.CountryOfSplits` | otp_bot.py:174 | Whenever the group id splits with `tok` first, the country is `tok`. |
| `Classifier.FlagOf` | otp_bot.py:184 | The flag is always one of the values of `COUNTRY_FLAGS`. |
| `Classifier.FlagFallback` | otp_bot.py:184 | A listed country gets its own flag. Any other country gets the "Unknown Country" flag. |
| `Classifier.ServiceKeywords` | otp_bot.py:42-44 | Definition, no contract: `SERVICE_KEYWORDS` in insertion order. |
| `Classifier.CountryFlags` | otp_bot.py:46 | Definition, no contract: `COUNTRY_FLAGS`. |
| `Classifier.AnyKeyword` | otp_bot.py:178 | Definition, no contract: some keyword of the entry occurs in the lowercased text. |
| `Classifier.FirstService` | otp_bot.py:175-180 | The service is "Unknown" or a name from the keyword table. |
| `Classifier.FirstMatchWins` | otp_bot.py:175-180 | If entry `i` is the first entry with a keyword in the lowercased text, the service is its name. An earlier entry always wins. |
| `Classifier.NoMatchIsUnknown` | otp_bot.py:175-180 | If no entry matches, the service is "Unknown". |
| `Classifier.DetectService` | otp_bot.py:175-180 | The loop that stops at the first match computes `FirstService` of the lowercased text. |
| `Classifier.CodeMatchAt` | otp_bot.py:181 | Definition, no contract: the intended pattern `\b(\d{4,8})\b` matching `k` characters at `i`, as an independent regex predicate. |
| `Classifier.DigitRun` | otp_bot.py:181 | The run starting at `i` is all digits and maximal: it ends at the end of the text or before a non-digit. |
| `Classifier.CodeStartsAt` | otp_bot.py:181 | Definition, no contract: the maximal digit run at `i` has 4-8 digits and word boundaries on both sides. |
| `Classifier.CodeMatchAtIff` | otp_bot.py:181 | A word-bounded 4-8 digit match starts at `i` exactly when a maximal digit run of 4-8 starts there with word boundaries on both sides. The match is then that whole run. |
| `Classifier.FindCodeFrom` | otp_bot.py:181 | The search returns the leftmost start of a code at or after `i`, or reports that none exists. |
| `Classifier.MatchCode` | otp_bot.py:181-182 | A found code has 4 to 8 characters, all digits. |
| `Classifier.CodeOf` | otp_bot.py:181-182 | The code is "N/A" or 4-8 digits. It is "N/A" exactly when nothing matched. |
| `Classifier.CodeIsLeftmostMatch` | otp_bot.py:181-182 | Completeness: the leftmost regex match is the code. |
| `Classifier.CodeIsMatch` | otp_bot.py:181-182 | Soundness: a code is a regex match, and no match starts further left. |
| `Classifier.NoMatchNoCode` | otp_bot.py:181-182 | With no match anywhere in the text, the code is "N/A". |
| `Classifier.LetterDRun` | otp_bot.py:181 | The run of letters `d` starting at `i` stays in the text, is all `d`, and is maximal: it ends at the end of the text or before another character. |
| `Classifier.LiteralCodeAt` | otp_bot.py:181 | Definition, no contract: the raw-string pattern read literally: backslash, `b`, backslash, 4-8 letters `d`, backslash, `b`. |
| `Classifier.FindLiteralFrom` | otp_bot.py:181 | As written: the search returns the leftmost start of a literal-pattern match at or after `i`, which is a backslash, or reports that none exists. |
| `Classifier.CodeAsWritten` | otp_bot.py:181-182 | Definition, no contract: line 182 with the pattern read literally. |
| `Classifier.AsWrittenNeedsBackslash` | otp_bot.py:181-182 | As written: a text without a backslash never yields a code. |
| `Classifier.NatDecimal` | otp_bot.py:183 | The decimal form of a natural number is non-empty and all digits; `NatDecimalValue` reads it back. |
| `Classifier.IntDecimal` | otp_bot.py:183 | The decimal form of the hash is non-empty. It has a leading '-' exactly for negative values, and digits otherwise. |
| `Classifier.NatDecimalValue` | otp_bot.py:183 | Reading the decimal form of a natural number back gives the number. |
| `Classifier.IntDecimalValue` | otp_bot.py:183 | Reading the signed decimal form of an integer back gives the integer. |
| `Classifier.IntDecimalInjective` | otp_bot.py:183 | Different integers have different decimal forms. |
| `Classifier.MessageId` | otp_bot.py:183 | The id is the phone number and a dash, followed by a signed digit string that reads back as the hash of the text. |
| `Classifier.MessageIdKey` | otp_bot.py:183 | For one phone number, two texts get the same id exactly when their hashes are equal. |
| `Classifier.Classify` | otp_bot.py:172-194 | A card raises exactly for a non-empty all-whitespace group id. Otherwise the record keeps the phone and the text, and has a known flag, a table service name, and a code that is "N/A" or 4-8 digits. |
| `Classifier.ClassifyCard` | otp_bot.py:172-194 | The imperative block computes `Classify`. |
| `Scenarios.SampleCode` | otp_bot.py:181-182 | "Your WhatsApp code is 482913" has the code "482913". |
| `Scenarios.SampleService` | otp_bot.py:175-180 | The same text is classified as "WhatsApp". |
| `Scenarios.SampleCountry` | otp_bot.py:174 | The group "Pakistan 92" has the country "Pakistan". |
| `Scenarios.SampleRecord` | otp_bot.py:172-194 | The whole record of that card: country, Pakistani flag, "WhatsApp", "482913", phone and text. |
| `Scenarios.SampleCodeAsWritten` | otp_bot.py:181-182 | With the pattern as written, the same text gives "N/A". |
| `Fetch.Raises` | otp_bot.py:170-174 | Definition, no contract: a card with a paragraph whose group id is non-empty and all whitespace, so `split()[0]` raises `IndexError`. |
| `Fetch.WithText` | otp_bot.py:169-171 | Definition, no contract beyond every kept card having a paragraph: the cards that pass `if not p: continue`, in order. |
| `Fetch.CardRecord` | otp_bot.py:172-194 | Definition, no contract: the classification of a card's stripped paragraph text. |
| `Fetch.ClassifyAll` | otp_bot.py:169-194 | Definition, no contract: the records of a card sequence, left to right, or `None` once a card raised. |
| `Fetch.Fetched` | otp_bot.py:139-199 | Definition, no contract: `[]` for a failed scrape or a raising card, else the records. |
| `Fetch.FetchSms` | otp_bot.py:139-199 | The card loop returns `Fetched`. That is `[]` after an exception, and otherwise the records of the cards with a paragraph. |
| `Fetch.ClassifyAllStep` | otp_bot.py:169-194 | One more card is skipped without a paragraph. Otherwise its record is appended, or the walk raises. |
| `Fetch.NoneExtends` | otp_bot.py:196-199 | Once a card has raised, the whole walk has raised. |
| `Fetch.RaisingCardEmptiesFetch` | otp_bot.py:169-199 | A single raising card empties the whole result, including the records built before it. |
| `Fetch.ClassifyAllRecords` | otp_bot.py:169-194 | Without a raising card, the result has one record per card with a paragraph, in scrape order, each the classification of its stripped text. |
| `Fetch.ClassifyAllFailsOnlyOnRaise` | otp_bot.py:169-199 | The walk fails only if some card raises. |
| `Dispatch.IdsOf` | otp_bot.py:264 | Definition, no contract: the set of ids of a message sequence. |
| `Dispatch.Deliveries` | otp_bot.py:259-263 | Definition, no contract: one attempt per destination, in list order, each with the message id and its outcome; `SendToAll` and the `FanOut*` lemmas give its meaning. |
| `Dispatch.Attempts` | otp_bot.py:259-263 | Definition, no contract: the (destination, message id) pairs of a log, without outcomes. |
| `Dispatch.FanOut` | otp_bot.py:255-264 | Definition, no contract: the send attempts of the outer loop; the `FanOut*` lemmas give its meaning. |
| `Dispatch.IdsOfMember` | otp_bot.py:264 | An id is in the collected set exactly when some message carries it. |
| `Dispatch.IdsOfSnoc` | otp_bot.py:264 | Handling one more message adds exactly its id. |
| `Dispatch.FanOutSnoc` | otp_bot.py:255-264 | One more message adds its block of attempts, one per destination in list order, unless its id was processed by then. |
| `Dispatch.FanOutStep` | otp_bot.py:255-264 | The same step, stated for the prefixes the loop walks over. |
| `Dispatch.FanOutSkipsProcessed` | otp_bot.py:255-257 | No attempt carries an id that was processed at the start. Every attempt is for a fetched message. |
| `Dispatch.FanOutReachesEveryChat` | otp_bot.py:255-264 | Every fetched message with a fresh id is attempted for every destination. |
| `Dispatch.FanOutAtMostOnce` | otp_bot.py:255-264 | With a duplicate-free destination list, no (destination, id) pair is attempted twice. So of two cards with the same phone and text, only one is forwarded. |
| `Dispatch.FanOutIgnoresFailures` | otp_bot.py:259-263 | Which attempts are made, and in which order, does not depend on which sends fail. |
| `Store.LoadedChatIds` | otp_bot.py:49-58 | Definition, no contract: the stored list, or `INITIAL_CHAT_IDS` for a missing or unreadable file. |
| `Store.ChatFileAfterLoad` | otp_bot.py:49-58 | Definition, no contract: a missing file is created holding `INITIAL_CHAT_IDS`; other states stay. |
| `Store.LoadedProcessed` | otp_bot.py:64-71 | Definition, no contract: the stored set, or the empty set. |
| `Store.LoadIsStable` | otp_bot.py:49-58 | A second load of the chat ids returns the same list and writes nothing more. |
| `Store.SaveThenLoad` | otp_bot.py:49-75 | Loading after a save returns what was saved, for both files. |
| `ChatList.Register` | otp_bot.py:103-106 | Definition, no contract: the list unchanged if the id is present, else with the id appended; `RegisterSpec` gives its meaning. |
| `ChatList.RemoveFirst` | otp_bot.py:121 | Definition, no contract: `list.remove`; `RemoveFirstAt`, `RemoveAbsent` and `RemoveFirstMultiset` give its meaning. |
| `ChatList.IndexOf` | otp_bot.py:121 | Gives the position of the first occurrence of the id. |
| `ChatList.RegisterSpec` | otp_bot.py:103-106 | After adding, the id is present. The contents are unchanged if it was there, and otherwise grow by that one id. A duplicate-free list stays duplicate-free. |
| `ChatList.RemoveFirstAt` | otp_bot.py:120-121 | Removal deletes exactly the first occurrence and keeps the order of the rest. |
| `ChatList.RemoveAbsent` | otp_bot.py:120-125 | Removing an absent id changes nothing. |
| `ChatList.RemoveFirstMultiset` | otp_bot.py:121 | Removal takes one copy of the id away and keeps every other id. |
| `ChatList.RemoveKeepsNoDuplicates` | otp_bot.py:121 | In a duplicate-free list, removal leaves no copy of the id and no duplicate. |
| `Bot.AbortsBeforeFetch` | otp_bot.py:233-248 | Definition, no contract: a request raised, the login URL mentions "login", or the CSRF meta tag is missing. |
| `Bot.Forwardable` | otp_bot.py:241-254 | Definition, no contract: `[]` when the cycle stops before the fetch, else what the fetch returns; `CheckSmsJob`'s contract is stated through it. |
| `Bot.LoginRejected` | otp_bot.py:241 | Definition, no contract: "login" occurs in the lowercased final URL. |
| `Bot.Join` | otp_bot.py:135 | Definition, no contract: `str.join`. |
| `Bot.ReplyText` | otp_bot.py:85-135 | Definition, no contract: the reply strings of the command handlers. |
| `Bot.OtpBot.LoadChatIds` | otp_bot.py:49-58 | A missing file yields the initial list and is created holding it. An unreadable file yields the initial list and is not written. A stored list is returned as is. |
| `Bot.OtpBot.SaveChatIds` | otp_bot.py:60-62 | The chat-id file then holds the list. |
| `Bot.OtpBot.LoadProcessedIds` | otp_bot.py:64-71 | Returns `LoadedProcessed` of the state file (the stored set, or the empty set for a missing or unreadable file) and writes nothing. |
| `Bot.OtpBot.SaveProcessedIds` | otp_bot.py:73-75 | The state file then holds the set, and the save is logged once. |
| `Bot.OtpBot.Start` | otp_bot.py:82-93 | Admins get the help text. Everybody else gets the refusal. |
| `Bot.OtpBot.AddChat` | otp_bot.py:95-110 | A non-admin or a missing argument leaves the file and the initial list unchanged. An id already present leaves the list unchanged. Otherwise the id is appended and saved, and when the list came from a fallback load, the initial list is the appended list too. |
| `Bot.OtpBot.RemoveChat` | otp_bot.py:112-127 | A non-admin or a missing argument leaves the file and the initial list unchanged. A present id loses its first occurrence and the result is saved; when the list came from a fallback load, the initial list is the shortened list too. An absent id leaves the list unchanged. |
| `Bot.OtpBot.ListChats` | otp_bot.py:129-135 | A non-admin gets the refusal and the file is unchanged. An admin gets the loaded list. |
| `Bot.OtpBot.Send` | otp_bot.py:202-223 | Exactly one attempt is logged with its outcome. A failure does not reach the caller. |
| `Bot.OtpBot.SendToAll` | otp_bot.py:259-263 | The inner loop makes one attempt per destination, in list order, whatever the outcomes. |
| `Bot.OtpBot.ForwardNew` | otp_bot.py:255-264 | The outer loop makes exactly the `FanOut` attempts. The processed set ends as the old set plus the ids of all fetched messages. |
| `Bot.OtpBot.CheckSmsJob` | otp_bot.py:226-268 | Any of these stops the cycle with no state saved and nothing sent: a request error, a login that ends on a "login" URL, a missing CSRF tag, or an empty fetch. Otherwise the attempts are `FanOut` for the destinations and processed ids at cycle start, the set is saved once as old set plus fetched ids, and the chat file changes only as a load changes it. |

## Left out

- HTTP login, the CSRF token scraping and the three POST endpoints: network I/O against an upstream that is not part of this model. `Portal` stands in for their outcome.
- BeautifulSoup parsing of the group, number and card listings (lines 147-171), including the `onclick` group-id regex at line 154. `Fetch.Scrape` takes the cards the scraper would find as input, flattened in the order of the nested loops. That regex is also written with doubled backslashes in a raw string. Read as the source text gives it, it needs a backslash right after `getDetials` and another right after the closing quote, and the unescaped parentheses form group 1, so `m.group(1)` would hold the quotes and the trailing backslash. On ordinary `getDetials('…')` markup it never matches, so `group_ids` stays empty and `fetch_sms_from_api` returns `[]` on every cycle. This rests on the source text alone and was not executed; as with line 181, the doubled backslashes could be an artifact of how the file was exported. It is not modelled, because the group ids are inputs here.
- `get_text(separator='\\n')` at line 172: read as the source text gives it (not executed, and possibly an export artifact like line 181), the separator is a literal backslash and `n`, inserted between the text fragments of a paragraph. That is part of the HTML library, so the paragraph text is an input.
- Telegram API calls, command registration, the job queue and `run_polling`: framework plumbing. Concurrency between the job and the commands is not modelled.
- JSON reading and writing: replaced by `Store.FileState`. The processed-id file is modelled as the set it loads to, because the list order that `json.dump` writes is immaterial to `load_processed_ids`. A JSON file that parses to something other than a list of strings is not modelled. The JSON round trip itself (that `json.load` returns what `json.dump` wrote) is assumed by this abstraction, not proved: `Store.LoadIsStable` and `Store.SaveThenLoad` hold by the definition of `FileState`.
- Write failures in `save_chat_ids`, `save_processed_ids` and in the write `load_chat_ids` makes for a missing file (lines 51-52): the model's writes always succeed, and `Store.ChatFileAfterLoad` assumes that last one does. In the source, a failed write inside `/add_chat` or `/remove_chat` becomes the "Usage" reply, and a failed write in the load at line 231 of `check_sms_job`, which lies outside its `try`, ends the job with an exception.
- Console logging: the `print` and `traceback.print_exc` calls at lines 197-198, 223, 228, 242, 247, 253, 263 and 267-268 write only to the console and change no state, so they are left out.
- `Classifier.MessageId`: does not claim that ids are stable across restarts, because Python's `hash` is randomised per process and is an uninterpreted parameter here.
- Timestamps (`datetime.utcnow()`, the date-range strings and the record's `time` field): clocks are not modelled.
- The message template and `SERVICE_EMOJIS` at lines 204-220: cosmetic.
- Environment-variable parsing of the configuration: `admins` and `initialChatIds` are constructor arguments.
- Unicode: `lower`, `split`, `strip`, `\d` and `\w` cover ASCII only. Non-ASCII letters, which Python treats as word characters, are treated as non-word characters.
- The flag emojis appear mis-decoded in the source text. The model uses the evident code points: U+1F1F5 U+1F1F0 for Pakistan, and U+1F3F4 U+200D U+2620 U+FE0F for the pirate flag.

## Findings

| source | as written | input that shows it | evidently intended | confidence | as-written member | corrected member |
|---|---|---|---|---|---|---|
| otp_bot.py:181 | The raw string `r'\\b(\\d{4,8})\\b'` matches a literal backslash and `b`, a backslash and four to eight letters `d`, then a backslash and `b`. It does not match digits. | "Your WhatsApp code is 482913" gives "N/A" | Word-bounded runs of 4-8 digits, giving "482913" | not executed; medium, since the doubled backslashes could be an artifact of how the file was exported | `Classifier.CodeAsWritten` (shown by `Scenarios.SampleCodeAsWritten`, `Classifier.AsWrittenNeedsBackslash`) | `Classifier.CodeOf` (proved by `Classifier.CodeIsLeftmostMatch`, `Classifier.CodeIsMatch`, `Scenarios.SampleCode`) |
