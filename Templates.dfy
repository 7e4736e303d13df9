/** The reply templates of `utils.py`: the item-edit replies looked up by
    action name, and the configuration-status replies chosen by status. Each
    reply is sent as exactly one `Message` to the chat it concerns; the
    sending itself is done by the handlers in the Commands module. */
module Templates {
  import opened Optional
  import opened Text

  /** One `send_message(chat_id, text)` call. */
  datatype Message = Message(chatId: int, text: string)

  /** The `chat` dictionary the handlers build: its id, its type (private,
      group, supergroup or channel) and its display name. */
  datatype ChatInfo = ChatInfo(id: int, kind: string, name: string)

  /** `<b>s</b>`: bold text in the HTML the bot sends (nothing is escaped). */
  function Bold(s: string): string
  {
    "<b>" + s + "</b>"
  }

  /** `<a href="url">text</a>`: a hyperlink in that HTML. */
  function Link(url: string, text: string): string
  {
    "<a href=\"" + url + "\">" + text + "</a>"
  }

  // ---------------------------------------------------------------------------
  // item_message
  // ---------------------------------------------------------------------------

  /** The four keys of the item-reply table. */
  datatype ItemAction = Append | Remove | Duplicate | Missing

  /** The action name the handlers pass to `item_message`. */
  function ActionKey(a: ItemAction): string
  {
    match a
    case Append => "append"
    case Remove => "remove"
    case Duplicate => "duplicate"
    case Missing => "missing"
  }

  function Phrase(a: ItemAction): string
  {
    match a
    case Append => "has been added to the"
    case Remove => "has been removed from the"
    case Duplicate => "is already in the"
    case Missing => "is not in the"
  }

  /** The reply for `a`: the item in bold, what happened, and the list name. */
  function ItemText(item: string, keys: string, a: ItemAction): string
  {
    Bold(item) + " " + Phrase(a) + " " + keys + " list!"
  }

  /** `messages[action]`: the table lookup; `None` is the `KeyError` any
      other action name raises. */
  function ItemMessage(item: string, keys: string, action: string): Option<string>
  {
    if action == "append" then Some(ItemText(item, keys, Append))
    else if action == "remove" then Some(ItemText(item, keys, Remove))
    else if action == "duplicate" then Some(ItemText(item, keys, Duplicate))
    else if action == "missing" then Some(ItemText(item, keys, Missing))
    else None
  }

  /** The table answers exactly the four action names, and for each outcome
      of an edit it answers that outcome's text. */
  lemma ItemMessageTable(item: string, keys: string, action: string, a: ItemAction)
    ensures ItemMessage(item, keys, action).Some? <==> action in {"append", "remove", "duplicate", "missing"}
    ensures ItemMessage(item, keys, ActionKey(a)) == Some(ItemText(item, keys, a))
  {
  }

  /** Every item reply starts with the bold item and ends by naming the list. */
  lemma ItemTextNamesItemAndList(item: string, keys: string, a: ItemAction)
    ensures Bold(item) <= ItemText(item, keys, a)
    ensures EndsWith(ItemText(item, keys, a), keys + " list!")
  {
    var t := ItemText(item, keys, a);
    assert t == Bold(item) + (" " + Phrase(a) + " " + keys + " list!");
    assert t == (Bold(item) + " " + Phrase(a) + " ") + (keys + " list!");
  }

  /** The character at position `k` of a phrase is the character at
      `|Bold(item) + " "| + k` of the reply. */
  lemma ItemTextAt(item: string, keys: string, a: ItemAction, k: nat)
    requires k < |Phrase(a)|
    ensures |Bold(item) + " "| + k < |ItemText(item, keys, a)|
    ensures ItemText(item, keys, a)[|Bold(item) + " "| + k] == Phrase(a)[k]
  {
    var lead := Bold(item) + " ";
    assert ItemText(item, keys, a) == lead + (Phrase(a) + " " + keys + " list!");
  }

  /** Different outcomes give different replies for the same item and list. */
  lemma ItemTextInjective(item: string, keys: string, a: ItemAction, b: ItemAction)
    requires ItemText(item, keys, a) == ItemText(item, keys, b)
    ensures a == b
  {
    // "has been a…" / "has been r…" differ at 9, "is a…" / "is n…" at 3,
    // and "h…" / "i…" at 0.
    var k := if (a.Append? || a.Remove?) == (b.Append? || b.Remove?) then
               (if a.Append? || a.Remove? then 9 else 3)
             else 0;
    ItemTextAt(item, keys, a, k);
    ItemTextAt(item, keys, b, k);
  }

  // ---------------------------------------------------------------------------
  // config_file_status
  // ---------------------------------------------------------------------------

  /** The four branches of `config_file_status`. */
  datatype ConfigStatus = Created | Exists | NotFound | Issue

  /** Which branch a status string selects. */
  function StatusOf(status: string): ConfigStatus
  {
    if status == "created" then Created
    else if status == "exists" then Exists
    else if status == "missing" then NotFound
    else Issue
  }

  /** The part every status reply shares: chat type, bold name and bold id. */
  function ChatLabel(chat: ChatInfo): string
  {
    chat.kind + " chat " + Bold(chat.name) + " with ID " + Bold(IntToString(chat.id))
  }

  /** The opening words of each branch's reply. */
  function StatusLead(s: ConfigStatus): string
  {
    match s
    case Created => "Configuration file created for the "
    case Exists => "Configuration file for the "
    case NotFound => "Configuration file not found for the "
    case Issue => "There is an issue with the configuration for the "
  }

  /** The closing words of each branch's reply. */
  function StatusTail(s: ConfigStatus): string
  {
    match s
    case Created => "."
    case Exists => " already exists."
    case NotFound => ".\nPlease initialize the configuration with " + Bold("/start") + "."
    case Issue => "."
  }

  /** The reply `config_file_status` sends for `status`: the selected branch's
      opening words, the chat label, and the branch's closing words. */
  function StatusMessage(chat: ChatInfo, status: string): string
  {
    var branch := StatusOf(status);
    StatusLead(branch) + ChatLabel(chat) + StatusTail(branch)
  }

  /** Every status reply names the chat type, the bold chat name and the bold chat id. */
  lemma StatusNamesChat(chat: ChatInfo, status: string)
    ensures Contains(StatusMessage(chat, status), chat.kind)
    ensures Contains(StatusMessage(chat, status), Bold(chat.name))
    ensures Contains(StatusMessage(chat, status), Bold(IntToString(chat.id)))
  {
    var branch := StatusOf(status);
    var lead, tag, tail := StatusLead(branch), ChatLabel(chat), StatusTail(branch);
    var name, id := Bold(chat.name), Bold(IntToString(chat.id));
    ContainsEnd(lead, tag);
    ContainsInLeft(lead + tag, tail, tag);
    // the chat type opens the label
    ContainsStart(chat.kind, " chat ");
    ContainsInLeft(chat.kind + " chat ", name, chat.kind);
    ContainsInLeft(chat.kind + " chat " + name, " with ID ", chat.kind);
    ContainsInLeft(chat.kind + " chat " + name + " with ID ", id, chat.kind);
    ContainsTransitive(lead + tag + tail, tag, chat.kind);
    // the bold name sits in the middle of it
    ContainsEnd(chat.kind + " chat ", name);
    ContainsInLeft(chat.kind + " chat " + name, " with ID ", name);
    ContainsInLeft(chat.kind + " chat " + name + " with ID ", id, name);
    ContainsTransitive(lead + tag + tail, tag, name);
    // and the bold id closes it
    ContainsEnd(chat.kind + " chat " + name + " with ID ", id);
    ContainsTransitive(lead + tag + tail, tag, id);
  }

  /** The "missing" reply tells the user to run /start. */
  lemma MissingStatusAsksForStart(chat: ChatInfo)
    ensures Contains(StatusMessage(chat, "missing"), Bold("/start"))
  {
    var lead := StatusLead(NotFound) + ChatLabel(chat) + ".\nPlease initialize the configuration with ";
    ContainsEnd(lead, Bold("/start"));
    ContainsInLeft(lead + Bold("/start"), ".", Bold("/start"));
    assert StatusMessage(chat, "missing") == lead + Bold("/start") + ".";
  }

  /** Statuses that select different branches get different replies. */
  lemma StatusMessagesDistinct(chat: ChatInfo, s: string, t: string)
    requires StatusOf(s) != StatusOf(t)
    ensures StatusMessage(chat, s) != StatusMessage(chat, t)
  {
    var ls, lt := StatusLead(StatusOf(s)), StatusLead(StatusOf(t));
    // "There…" differs from "Configuration…" at 0; "…file created", "…file for"
    // and "…file not found" differ at 19.
    var k := if StatusOf(s) == Issue || StatusOf(t) == Issue then 0 else 19;
    assert StatusMessage(chat, s)[k] == ls[k];
    assert StatusMessage(chat, t)[k] == lt[k];
  }
}
