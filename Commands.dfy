/** The command handlers of `commands.py` for one chat: `/start`, the four
    list-editing commands (all through `manage_item`) and `/list`, plus the
    daily job `/start` schedules. The configuration file becomes the field
    `config` (absent until `/start`), the job queue's entries for the chat
    become `jobs`, every message sent to a chat is appended to `outbox`, and
    `writes` counts the times the configuration file is written. */
module Commands {
  import opened Optional
  import opened Text
  import opened ItemLists
  import opened Templates
  import opened Papers

  /** The `"chat"` object of the stored configuration. */
  datatype ChatRef = ChatRef(id: int, kind: string)

  /** One chat's stored configuration: its identity and its two filter lists. */
  datatype Config = Config(chat: ChatRef, keywords: seq<string>, authors: seq<string>)

  /** Which list a command edits. */
  datatype ItemKind = Author | Keyword

  /** The key of the `new_item` dictionary: "author" or "keyword". */
  function KeyName(kind: ItemKind): string
  {
    match kind
    case Author => "author"
    case Keyword => "keyword"
  }

  /** `key + "s"`: the configuration list the key selects. */
  function ListName(kind: ItemKind): string
  {
    KeyName(kind) + "s"
  }

  function Items(c: Config, kind: ItemKind): seq<string>
  {
    match kind
    case Author => c.authors
    case Keyword => c.keywords
  }

  function WithItems(c: Config, kind: ItemKind, xs: seq<string>): Config
  {
    match kind
    case Author => c.(authors := xs)
    case Keyword => c.(keywords := xs)
  }

  /** The action a handler passes: `add_*` appends, `del_*` removes. */
  datatype Request = Add | Delete

  /** What `manage_item` did: no configuration, no name given, or an edit
      (or refusal) of the list with the reply's action and the stored item. */
  datatype ManageOutcome = ConfigMissing | NameMissing | Edited(action: ItemAction, item: string)

  /** A daily digest job: its name, its chat, and its time of day. */
  datatype DailyJob = DailyJob(name: string, chatId: int, hour: nat, minute: nat)

  /** The job `/start` registers for a chat: named after the chat id, at 09:00. */
  function DigestJob(chatId: int): DailyJob
  {
    DailyJob(IntToString(chatId), chatId, 9, 0)
  }

  /** Jobs are looked up by name, and the name identifies the chat: two chats
      with different ids never share a digest job. */
  lemma DigestJobNamesChat(m: int, n: int)
    requires DigestJob(m).name == DigestJob(n).name
    ensures m == n
  {
    IntToStringRoundTrip(m);
    IntToStringRoundTrip(n);
  }

  /** `data.title or data.username`, as an f-string renders it. */
  function ChatName(title: Option<string>, username: Option<string>): string
  {
    if title.Some? && title.value != "" then title.value
    else if username.Some? then username.value
    else "None"
  }

  // ---------------------------------------------------------------------------
  // Normalising the command arguments
  // ---------------------------------------------------------------------------

  /** `" ".join([str(x).lower() for x in args])`: the item a command names. */
  function Normalise(args: seq<string>): string
  {
    Join(LowerAll(args), " ")
  }

  /** The stored item never holds a capital letter. */
  lemma NormaliseIsLowerCase(args: seq<string>)
    ensures NoUpper(Normalise(args))
  {
    JoinNoUpper(LowerAll(args), " ");
  }

  /** Arguments that differ only in case name the same item. */
  lemma NormaliseIgnoresCase(args: seq<string>, other: seq<string>)
    requires |args| == |other|
    requires forall i :: 0 <= i < |args| ==> Lower(args[i]) == Lower(other[i])
    ensures Normalise(args) == Normalise(other)
  {
    assert LowerAll(args) == LowerAll(other);
  }

  /** A stored item given back as a single argument names itself, so it can
      always be deleted by repeating it. */
  lemma NormaliseStable(args: seq<string>)
    ensures Normalise([Normalise(args)]) == Normalise(args)
  {
    NormaliseIsLowerCase(args);
    LowerFixesLowered(Normalise(args));
    assert LowerAll([Normalise(args)]) == [Normalise(args)];
  }

  /** The reply to an add or delete command without a name. */
  function NameRequest(kind: ItemKind): string
  {
    "Please specify the name of the " + KeyName(kind) + "!"
  }

  // ---------------------------------------------------------------------------
  // The /list reply
  // ---------------------------------------------------------------------------

  /** The reply to `/list` when both lists are empty. */
  const NothingListed: string := "There are no authors and keywords in both lists!"

  /** The line for one list: its items joined by ", " and ended by a full
      stop, or a notice that the list is empty. */
  function ListLine(name: string, xs: seq<string>): string
  {
    if xs != [] then Bold("List of " + name) + ": " + Join(xs, ", ") + "."
    else "There are no " + name + " in the " + name + " list!"
  }

  /** The reply to `/list`: the authors' line, then the keywords' line. */
  function Listing(authors: seq<string>, keywords: seq<string>): string
  {
    if authors == [] && keywords == [] then NothingListed
    else ListLine("authors", authors) + "\n" + ListLine("keywords", keywords)
  }

  /** A non-empty list's line names every item of the list. */
  lemma ListLineNamesItem(name: string, xs: seq<string>, x: string)
    requires x in xs
    ensures Contains(ListLine(name, xs), x)
  {
    var i :| 0 <= i < |xs| && xs[i] == x;
    var head := Bold("List of " + name) + ": ";
    JoinContains(xs, ", ", i);
    ContainsInRight(head, Join(xs, ", "), x);
    ContainsInLeft(head + Join(xs, ", "), ".", x);
  }

  /** The `/list` reply names every author and every keyword. */
  lemma ListingNamesEveryItem(authors: seq<string>, keywords: seq<string>, x: string)
    requires x in authors || x in keywords
    ensures Contains(Listing(authors, keywords), x)
  {
    var a, k := ListLine("authors", authors), ListLine("keywords", keywords);
    if x in authors {
      ListLineNamesItem("authors", authors, x);
      ContainsInLeft(a, "\n", x);
      ContainsInLeft(a + "\n", k, x);
    } else {
      ListLineNamesItem("keywords", keywords, x);
      ContainsInRight(a + "\n", k, x);
    }
  }

  // ---------------------------------------------------------------------------
  // One chat
  // ---------------------------------------------------------------------------

  class Chat {
    /** The `chat` dictionary every handler builds from the update. */
    const info: ChatInfo
    /** The configuration file: `None` until `/start` creates it. */
    var config: Option<Config>
    /** The job queue's entries named after this chat. */
    var jobs: seq<DailyJob>
    /** Every message sent, in order. */
    var outbox: seq<Message>
    /** How many times the configuration file has been written. */
    var writes: nat

    /** A stored configuration belongs to this chat, and the chat has at most
        one digest job, registered only once its configuration exists. */
    ghost predicate Valid()
      reads this
    {
      && (config.Some? ==> config.value.chat == ChatRef(info.id, info.kind))
      && |jobs| <= 1
      && (jobs != [] ==> jobs[0] == DigestJob(info.id) && config.Some?)
    }

    /** Neither stored list holds an item twice. */
    ghost predicate DuplicateFree()
      reads this
    {
      config.Some? ==> NoDup(config.value.authors) && NoDup(config.value.keywords)
    }

    /** A chat as the bot meets it after starting: its configuration file may
        already exist from an earlier run, and no job is registered yet. */
    constructor (id: int, kind: string, title: Option<string>, username: Option<string>, stored: Option<Config>)
      requires stored.Some? ==> stored.value.chat == ChatRef(id, kind)
      ensures Valid()
      ensures info == ChatInfo(id, kind, ChatName(title, username))
      ensures config == stored && jobs == [] && outbox == [] && writes == 0
    {
      info := ChatInfo(id, kind, ChatName(title, username));
      config := stored;
      jobs := [];
      outbox := [];
      writes := 0;
    }

    /** `send_message`: one message to the given chat. */
    method SendMessage(chatId: int, text: string)
      modifies this`outbox
      ensures outbox == old(outbox) + [Message(chatId, text)]
    {
      outbox := outbox + [Message(chatId, text)];
    }

    /** `item_message`: the table's reply for `action`, sent to the given
        chat; any other action name is a `KeyError`, which callers avoid. */
    method ItemReply(chatId: int, item: string, keys: string, action: string)
      requires ItemMessage(item, keys, action).Some?
      modifies this`outbox
      ensures outbox == old(outbox) + [Message(chatId, ItemMessage(item, keys, action).value)]
    {
      var messages := ItemMessage(item, keys, action);
      SendMessage(chatId, messages.value);
    }

    /** `config_file_status`: the status reply, sent to the chat it names. */
    method StatusReply(chat: ChatInfo, status: string)
      modifies this`outbox
      ensures outbox == old(outbox) + [Message(chat.id, StatusMessage(chat, status))]
    {
      SendMessage(chat.id, StatusMessage(chat, status));
    }

    /** `/start`: creates the configuration with empty lists unless it exists
        (replying "created" or "exists"), then registers the daily digest job
        unless one is registered under the chat's id. */
    method Start()
      requires Valid()
      modifies this
      ensures Valid()
      ensures old(config).Some? ==>
        && config == old(config) && writes == old(writes)
        && outbox == old(outbox) + [Message(info.id, StatusMessage(info, "exists"))]
      ensures old(config).None? ==>
        && config == Some(Config(ChatRef(info.id, info.kind), [], []))
        && writes == old(writes) + 1
        && outbox == old(outbox) + [Message(info.id, StatusMessage(info, "created"))]
      ensures jobs == if old(jobs) == [] then [DigestJob(info.id)] else old(jobs)
      ensures old(DuplicateFree()) ==> DuplicateFree()
    {
      if config.Some? {
        StatusReply(info, "exists");
      } else {
        config := Some(Config(ChatRef(info.id, info.kind), [], []));
        writes := writes + 1;
        StatusReply(info, "created");
      }
      var currentJobs := jobs;
      if currentJobs == [] {
        jobs := [DigestJob(info.id)];
      }
    }

    /** `manage_item`: adds or deletes the item the arguments name. Without a
        configuration it replies "missing" whatever the arguments; without
        arguments it asks for a name; otherwise it appends an absent item or
        removes the first occurrence of a present one (writing the file), and
        replies "duplicate" or "missing" without writing in the other cases. */
    method ManageItem(kind: ItemKind, request: Request, args: seq<string>) returns (outcome: ManageOutcome)
      requires Valid()
      modifies this`config, this`outbox, this`writes
      ensures Valid()
      ensures old(DuplicateFree()) ==> DuplicateFree()
      ensures old(config).None? ==>
        && outcome == ConfigMissing && config == old(config) && writes == old(writes)
        && outbox == old(outbox) + [Message(info.id, StatusMessage(info, "missing"))]
      ensures old(config).Some? && args == [] ==>
        && outcome == NameMissing && config == old(config) && writes == old(writes)
        && outbox == old(outbox) + [Message(info.id, NameRequest(kind))]
      ensures old(config).Some? && args != [] ==>
        var item, xs := Normalise(args), Items(old(config).value, kind);
        && outcome.Edited? && outcome.item == item
        && outbox == old(outbox) + [Message(info.id, ItemText(item, ListName(kind), outcome.action))]
        && (outcome.action == Append <==> request == Add && item !in xs)
        && (outcome.action == Duplicate <==> request == Add && item in xs)
        && (outcome.action == Remove <==> request == Delete && item in xs)
        && (outcome.action == Missing <==> request == Delete && item !in xs)
        && (outcome.action == Append ==>
              config == Some(WithItems(old(config).value, kind, xs + [item])) && writes == old(writes) + 1)
        && (outcome.action == Remove ==>
              config == Some(WithItems(old(config).value, kind, RemoveFirst(xs, item))) && writes == old(writes) + 1)
        && (outcome.action == Duplicate || outcome.action == Missing ==>
              config == old(config) && writes == old(writes))
    {
      if config.None? {
        StatusReply(info, "missing");
        return ConfigMissing;
      }
      if args == [] {
        SendMessage(info.id, NameRequest(kind));
        return NameMissing;
      }
      var item := Normalise(args);
      var keys := ListName(kind);
      var cfg := config.value;
      var xs := Items(cfg, kind);
      var action: ItemAction;
      if item in xs {
        if request == Delete {
          config := Some(WithItems(cfg, kind, RemoveFirst(xs, item)));
          writes := writes + 1;
          action := Remove;
          if NoDup(xs) {
            RemoveKeepsNoDup(xs, item);
          }
        } else {
          action := Duplicate;
        }
      } else {
        if request == Add {
          config := Some(WithItems(cfg, kind, xs + [item]));
          writes := writes + 1;
          action := Append;
          if NoDup(xs) {
            AppendKeepsNoDup(xs, item);
          }
        } else {
          action := Missing;
        }
      }
      ItemReply(info.id, item, keys, ActionKey(action));
      outcome := Edited(action, item);
    }

    /** `/list`: the listing of both lists, or the "missing" status reply. */
    method ListItems()
      requires Valid()
      modifies this`outbox
      ensures old(config).None? ==> outbox == old(outbox) + [Message(info.id, StatusMessage(info, "missing"))]
      ensures old(config).Some? ==>
        outbox == old(outbox) + [Message(info.id, Listing(config.value.authors, config.value.keywords))]
    {
      if config.None? {
        StatusReply(info, "missing");
        return;
      }
      var cfg := config.value;
      var names := ["authors", "keywords"];
      var lists := [cfg.authors, cfg.keywords];
      if cfg.authors == [] && cfg.keywords == [] {
        SendMessage(info.id, NothingListed);
        return;
      }
      var message: seq<string> := [];
      for i := 0 to |names|
        invariant |message| == i
        invariant forall j :: 0 <= j < i ==> message[j] == ListLine(names[j], lists[j])
      {
        message := message + [ListLine(names[i], lists[i])];
      }
      assert message == [ListLine("authors", cfg.authors), ListLine("keywords", cfg.keywords)];
      assert message[1..] == [ListLine("keywords", cfg.keywords)];
      assert Join(message, "\n") == Listing(cfg.authors, cfg.keywords);
      SendMessage(info.id, Join(message, "\n"));
    }

    /** The daily job firing for this chat: `send_papers` on the stored
        configuration, with `fetch` standing for the arXiv search. */
    method RunDailyJob(fetch: SearchRequest -> seq<Paper>, today: string)
      returns (searches: seq<SearchRequest>)
      requires Valid() && jobs != []
      modifies this`outbox
      ensures config.Some?
      ensures var c := config.value;
        var request := SearchRequest(Query(c.authors, c.keywords), MaxResults, SubmittedDate);
        && searches == (if c.authors == [] && c.keywords == [] then [] else [request])
        && outbox == old(outbox) +
             if c.authors == [] && c.keywords == [] then []
             else [Message(info.id, DigestText(fetch(request), today))]
    {
      var c := config.value;
      var sent;
      sent, searches := SendPapers(jobs[0].chatId, c.authors, c.keywords, fetch, today);
      outbox := outbox + sent;
    }
  }

  // ---------------------------------------------------------------------------
  // Properties across several commands
  // ---------------------------------------------------------------------------

  /** `/start` twice leaves the configuration, the jobs and the file as the
      first `/start` left them, and the second reply says "exists". */
  method StartTwice(chat: Chat)
    requires chat.Valid()
    modifies chat
    ensures chat.Valid()
    ensures chat.config == if old(chat.config).Some? then old(chat.config)
                           else Some(Config(ChatRef(chat.info.id, chat.info.kind), [], []))
    ensures |chat.jobs| == 1
    ensures chat.writes == if old(chat.config).Some? then old(chat.writes) else old(chat.writes) + 1
    ensures |chat.outbox| == |old(chat.outbox)| + 2
    ensures chat.outbox[|chat.outbox| - 1] == Message(chat.info.id, StatusMessage(chat.info, "exists"))
  {
    chat.Start();
    chat.Start();
  }

  /** Adding an absent item and deleting it again under any arguments that
      name the same item (other capitals, the words split differently)
      restores the configuration exactly. */
  method AddThenDelete(chat: Chat, kind: ItemKind, added: seq<string>, deleted: seq<string>)
    requires chat.Valid() && chat.config.Some?
    requires added != [] && deleted != [] && Normalise(deleted) == Normalise(added)
    requires Normalise(added) !in Items(chat.config.value, kind)
    modifies chat
    ensures chat.Valid()
    ensures chat.config == old(chat.config)
    ensures chat.writes == old(chat.writes) + 2
  {
    var before := chat.config.value;
    var first := chat.ManageItem(kind, Add, added);
    RemoveAppended(Items(before, kind), Normalise(added));
    var second := chat.ManageItem(kind, Delete, deleted);
    assert first.action == Append && second.action == Remove;
  }
}
