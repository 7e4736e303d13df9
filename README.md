# jarxiv-bot in Dafny

A model of the logic inside jarxiv-bot, a Telegram bot. Each chat keeps a list of arXiv authors and a list of keywords. The bot edits these lists on command and sends the chat a daily digest of newly submitted papers that match them. The filesystem, JSON, the Telegram API, the job queue and the arXiv client are outside the model. What is left is modelled and proved:

- **Filter-list manager** (`commands.py`, module `Commands`). The class `Commands.Chat` holds one chat's stored configuration as `Option<Config>`. It also holds the job-queue entries named after the chat, the messages sent so far, and a count of file writes. Its methods are:
  - `Start` for `/start`.
  - `ManageItem` for `manage_item`. `/add_author`, `/add_keyword`, `/del_author` and `/del_keyword` are `ManageItem` with a fixed `ItemKind` (`Author` or `Keyword`) and `Request` (`Add` or `Delete`).
  - `ListItems` for `/list`.
  - `RunDailyJob` for the scheduled `send_papers`.

  Python's `list.append` and `list.remove` are modelled in module `ItemLists`.
- **Query builder and digest formatter** (`papers.py`, module `Papers`). This covers:
  - The arXiv query, built from the prefixes `au:`, `ti:` and `abs:`, OR-joined, with Python's character-set `str.strip(" OR ")` applied to the result.
  - The numbered digest message.
  - `SendPapers`, which ties these together. The arXiv search is its parameter `fetch`.
- **Message templates** (`utils.py`, module `Templates`). The item-reply table looked up by action name, and the configuration-status replies chosen by status.
- Module `Text` holds the Python string built-ins the code relies on: `str.join`, `str.lower`, `str.strip(chars)` and `str(int)`. It also defines `Contains` and `EndsWith`, predicates for stating what a reply contains. The code's only `in` test, the duplicate check, is list membership. Module `Optional` holds `Option`.

Three behaviours of the code are worth stating plainly:
- `manage_item` checks that the configuration exists before it checks for an empty argument. So a chat without a configuration gets the "missing" reply even when it gives no name.
- The reply to a successful delete is "<b>item</b> has been removed from the keys list!".
- The scheduled job makes no search and sends nothing when both lists are empty.

## Model

| member | source | states |
|---|---|---|
| `Commands.Chat.constructor` | src/jarxiv/commands.py:34-37 | The chat label is the id, the type and `title or username`, rendering a missing name as "None". The configuration is whatever file already exists for the chat. |
| `Commands.Chat.Start` | src/jarxiv/commands.py:39-63 | With a configuration already present: leaves it and the file untouched and replies "exists". Otherwise: creates a configuration with empty `authors` and `keywords`, writes it once and replies "created". Registers the 09:00 job named after the chat id only when none is registered. Keeps the invariants: at most one job, and a job only when a configuration exists. |
| `Commands.DigestJob` | src/jarxiv/commands.py:77-83 | The job `/start` registers: named `str(chat id)`, for the chat's id, daily at 09:00. |
| `Commands.DigestJobNamesChat` | src/jarxiv/commands.py:81 | Two chats with different ids never share a job name, so the lookup of jobs by name finds only the chat's own job. |
| `Commands.ChatName` | src/jarxiv/commands.py:35 | `title or username`: the title unless it is absent or empty, then the username, and "None" when both are absent. |
| `Commands.StartTwice` | src/jarxiv/commands.py:39-63 | `/start` is idempotent. A second call leaves the configuration, the single job and the write count as the first call left them, and replies "exists". |
| `Commands.Chat.ManageItem` | src/jarxiv/commands.py:109-159 | With no configuration: replies "missing", whatever the arguments, and writes nothing. With no arguments: asks for the name of the `key` and writes nothing. Otherwise the item is the normalised arguments and the list is `key + "s"`. An absent item added is appended at the end, written, and the reply is "append". A present item deleted loses its first occurrence, is written, and the reply is "remove". A present item added gives "duplicate", and an absent item deleted gives "missing"; both leave the list and the file unchanged. The other list is never touched. Duplicate-free lists stay duplicate-free. |
| `Commands.AddThenDelete` | src/jarxiv/commands.py:129-155 | Adding an absent item and then deleting it restores the configuration exactly, with two writes, whenever the delete's arguments name the same item: other capitals, or the words split differently. |
| `Commands.NameRequest` | src/jarxiv/commands.py:122-126 | The reply to an add or delete without a name, naming the `key`. |
| `Commands.Normalise` | src/jarxiv/commands.py:129 | The item the arguments name: each argument lower-cased, joined by single spaces. Its properties are the three lemmas below. |
| `Commands.NormaliseIsLowerCase` | src/jarxiv/commands.py:129 | A stored item contains no capital letter. |
| `Commands.NormaliseIgnoresCase` | src/jarxiv/commands.py:129 | Arguments that differ only in case name the same item. |
| `Commands.NormaliseStable` | src/jarxiv/commands.py:129 | A stored item, given back as a single argument, names itself. |
| `Commands.Chat.ListItems` | src/jarxiv/commands.py:241-272 | With no configuration: replies "missing" and creates nothing. Otherwise it sends exactly one message. That message is the fixed "no authors and keywords" text when both lists are empty. If not, it is the authors' line followed by the keywords' line, built in a loop as the code does. |
| `Commands.ListLine` | src/jarxiv/commands.py:262-267 | One list's line: the bold "List of name", its items joined by ", " and a full stop, or "There are no name in the name list!" when it is empty. |
| `Commands.Listing` | src/jarxiv/commands.py:252-269 | The `/list` reply: the fixed notice when both lists are empty, otherwise the authors' line and the keywords' line joined by "\n". `Chat.ListItems` is proved to build it. |
| `Commands.ListLineNamesItem` | src/jarxiv/commands.py:263-265 | The line of a non-empty list contains every item of that list. |
| `Commands.ListingNamesEveryItem` | src/jarxiv/commands.py:252-269 | The `/list` reply contains every author and every keyword. |
| `Commands.Chat.RunDailyJob` | src/jarxiv/papers.py:31-43 | The job only fires for a chat whose configuration exists. It makes no search and sends nothing when both lists are empty. Otherwise it makes one search for the query built from the stored lists and sends one digest message of its results to the chat. |
| `Commands.Chat.SendMessage` | src/jarxiv/utils.py:11-24 | Sends exactly one message, to the given chat id, with the given text. |
| `Commands.Chat.ItemReply` | src/jarxiv/utils.py:44-56 | Sends exactly one message, the table's reply for the action. It is callable only with an action the table defines. |
| `Commands.Chat.StatusReply` | src/jarxiv/utils.py:72-95 | Sends exactly one message, the status reply, to the chat it names. |
| `ItemLists.RemoveFirst` | src/jarxiv/commands.py:135 | `list.remove(x)` on a list holding `x`. Its meaning is fixed by the two lemmas below. |
| `ItemLists.IndexOf` | src/jarxiv/commands.py:135 | The result is the position of the first occurrence of the item. |
| `ItemLists.RemoveFirstAt` | src/jarxiv/commands.py:135 | `list.remove` deletes exactly the first occurrence and keeps the order of everything else. |
| `ItemLists.RemoveFirstMultiset` | src/jarxiv/commands.py:135 | Removal takes away one copy of the item and nothing else. |
| `ItemLists.RemoveAppended` | src/jarxiv/commands.py:133-155 | Removing an item just appended to a list that lacked it returns the original list. |
| `ItemLists.AppendPresentDuplicates` | src/jarxiv/commands.py:142-145 | Appending an item already present would create a duplicate. This is why the add is refused with "duplicate". |
| `ItemLists.RemoveKeepsNoDup` | src/jarxiv/commands.py:132-141 | On a duplicate-free list, removal keeps the list duplicate-free and leaves no copy of the item. |
| `Templates.ItemText` | src/jarxiv/utils.py:44-49 | The reply for one action: the bold item, the action's phrase, and "keys list!". |
| `Templates.ItemMessage` | src/jarxiv/utils.py:44-55 | `messages[action]`: the reply for one of the four action names, `None` for the `KeyError` of any other name. |
| `Templates.ItemMessageTable` | src/jarxiv/utils.py:44-56 | The table is defined for exactly "append", "remove", "duplicate" and "missing". Any other key is the lookup failure. Each outcome's key gives that outcome's text. |
| `Templates.ItemTextNamesItemAndList` | src/jarxiv/utils.py:44-49 | Every item reply starts with the bold item and ends with "{keys} list!". |
| `Templates.ItemTextInjective` | src/jarxiv/utils.py:44-49 | The four actions give four different replies. |
| `Templates.StatusMessage` | src/jarxiv/utils.py:72-92 | The reply for a status: the branch's opening words, the chat label (type, bold name, bold id), and the branch's closing words. |
| `Templates.StatusNamesChat` | src/jarxiv/utils.py:72-92 | Every status reply names the chat type, the bold chat name and the bold chat id. |
| `Templates.MissingStatusAsksForStart` | src/jarxiv/utils.py:82-87 | The "missing" reply tells the user to run `/start`. |
| `Templates.StatusMessagesDistinct` | src/jarxiv/utils.py:72-92 | "created", "exists", "missing" and every other status select four different replies. |
| `Papers.AuthorsQuery` | src/jarxiv/papers.py:46-50 | `au:"author"` for each author, joined by " OR ", or "" without authors. |
| `Papers.KeywordsQuery` | src/jarxiv/papers.py:51-57 | `ti:"keyword" OR abs:"keyword"` for each keyword, joined by " OR ", or "" without keywords. |
| `Papers.Query` | src/jarxiv/papers.py:58 | The two parts joined by " OR " and stripped of the characters ' ', 'O' and 'R' at both ends. `QueryCases` and `QueryIsDisjunction` say what that gives. |
| `Papers.AuthorsQueryTrimmed` | src/jarxiv/papers.py:46-50 | A non-empty author part of the query starts and ends outside the set of characters that `strip` removes. |
| `Papers.KeywordsQueryTrimmed` | src/jarxiv/papers.py:51-57 | A non-empty keyword part of the query starts and ends outside the set of characters that `strip` removes. |
| `Papers.QueryCases` | src/jarxiv/papers.py:46-58 | Stripping " OR " as a character set gives the author part alone when there are no keywords, and the keyword part alone when there are no authors. With both present it gives the full concatenation. With neither it gives "". |
| `Papers.QueryIsDisjunction` | src/jarxiv/papers.py:46-58 | Whenever there is something to search for, the query is exactly one term per author then one term per keyword, joined by " OR ". |
| `Papers.Header` | src/jarxiv/papers.py:79-81 | "Last submitted N papers for date" followed by a line break. |
| `Papers.PaperLine` | src/jarxiv/papers.py:85-88 | One entry: the bold rank and linked title, the first author with " et al.", and the date in parentheses. |
| `Papers.NumberedLines` | src/jarxiv/papers.py:84-88 | The entries of the papers in order, ranked from `first`. |
| `Papers.DigestText` | src/jarxiv/papers.py:72-91 | "No new papers found." for no results, otherwise the header and the entries joined by "\n". `ComposeDigest` is proved to build it. |
| `Papers.NumberedLinesAt` | src/jarxiv/papers.py:84-88 | There is one entry per paper, in result order, and the i-th paper is ranked i + 1. |
| `Papers.DigestLayout` | src/jarxiv/papers.py:79-91 | For N > 0 results, the message is the header "Last submitted N papers for date" with its line break, then the N entries ranked 1 to N, joined by "\n". |
| `Papers.PaperLineShowsPaper` | src/jarxiv/papers.py:85-88 | An entry shows the paper's link, its title, its first author followed by " et al." and its date. |
| `Papers.DigestShowsEveryPaper` | src/jarxiv/papers.py:79-91 | The digest contains the entry, title, link, author and date of every returned paper. |
| `Papers.ComposeDigest` | src/jarxiv/papers.py:72-91 | The loop builds the digest text. Zero results give exactly "No new papers found.". |
| `Papers.SendPapers` | src/jarxiv/papers.py:42-91 | With no authors and no keywords: the list of searches made is empty and nothing is sent. Otherwise exactly one search is made, for the built query with at most 10 results sorted by submission date, and exactly one message, the digest of its results, is sent to the chat. |
| `Text.Join` | src/jarxiv/commands.py:264 | `sep.join(xs)`: the items with `sep` between neighbours. `JoinContains` and `QueryIsDisjunction` rely on it. |
| `Text.Strip` | src/jarxiv/papers.py:58 | `str.strip(chars)`: `rstrip` after `lstrip` with the same character set. |
| `Text.StripLeft` | src/jarxiv/papers.py:58 | `lstrip(chars)` removes the longest leading run of characters from the set. |
| `Text.StripRight` | src/jarxiv/papers.py:58 | `rstrip(chars)` removes the longest trailing run of characters from the set. |
| `Text.StripLeftPrefix` | src/jarxiv/papers.py:58 | Stripping removes a leading separator made only of stripped characters and stops at the first other character. |
| `Text.StripRightSuffix` | src/jarxiv/papers.py:58 | Stripping removes a trailing separator made only of stripped characters and stops at the last other character. |
| `Text.Lower` | src/jarxiv/commands.py:129 | A lower-cased argument has the same length and contains no capital letter. Each capital A to Z becomes its small letter, and every other character is kept. |
| `Text.LowerEqualIff` | src/jarxiv/commands.py:129 | Two arguments lower-case alike exactly when they have the same length and differ at most in the case of letters A to Z. |
| `Text.NatToString` | src/jarxiv/papers.py:80 | The paper count and the ranks are rendered as digits with no leading zero. |
| `Text.NatToStringRoundTrip` | src/jarxiv/papers.py:80-86 | Reading back the rendered count or rank gives the number. |
| `Text.IntToString` | src/jarxiv/utils.py:74-75 | `str(n)`: a minus sign before the digits of a negative chat id. |
| `Text.IntToStringRoundTrip` | src/jarxiv/utils.py:74-75 | Reading back a rendered chat id, negative group ids included, gives the id. |
| `Text.JoinContains` | src/jarxiv/commands.py:264 | Every item of a `", ".join` or `"\n".join` appears in the joined string. |

## Left out

- Files and JSON. The configuration file is the field `Chat.config`, and `Chat.writes` counts writes. The path built from the chat type and id, encoding and `indent` are not modelled.
- The Telegram API. Every `send_message` is one `Message(chatId, text)` appended to `Chat.outbox`. Parse mode, link-preview options, the `Update` and the context objects are not modelled.
- The job queue. `Chat.jobs` holds the queue's entries named after the chat. The queue's other chats, the Europe/Rome time zone and the firing itself are not modelled. `RunDailyJob` is what one firing does.
- The arXiv client. The search is the parameter `fetch` of `SendPapers` and `RunDailyJob`, given the request (query, 10, submission date). The cap of 10 results is passed in the request but is not assumed of `fetch`, because no property depends on it.
- A `Paper` carries its first link and first author. Taking `links[0]` and `authors[0]` happens outside the model. The code would raise `IndexError` for a result without a link or an author.
- A failing arXiv search is not modelled. In the code its exception ends the job and nothing is sent, because papers.py:64-69 has no handler.
- Dates. Today's date and each paper's submission date arrive already rendered as `dd-mm-yyyy`. `datetime.today` and `strftime` are not modelled.
- `Text.Lower`: lower-cases only the letters A to Z. Python's `str.lower` also maps other Unicode letters.
- `get_latest` is not modelled. It calls `send_papers` with an extra argument that function does not accept, and it is not registered as a command handler.
- The chat label (`Chat.info`) is taken once, when the chat is built. The code rebuilds `title or username` from every update, so after a group is renamed its replies show the new title. The model keeps the first one.
- The stored configuration's `chat` entry is assumed to match the chat it belongs to. The constructor requires it and `Chat.Valid` keeps it. The code never reads that entry.
- `jarxiv.py` is not part of this model. It only registers the handlers and starts polling.
- Concurrency. The handlers run one at a time here. The read-modify-write race of two commands on the same configuration file is not modelled.
- The code escapes no HTML, and neither does the model.
