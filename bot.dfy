/** The bot's state and its handlers: the admin commands (otp_bot.py, lines 82-135)
    and the periodic job `check_sms_job` (lines 226-268). The Telegram client, the
    HTTP session and the file system are replaced by the inputs and fields below. */
module Bot {
  import opened Wrappers
  import opened Text
  import opened Classifier
  import opened Fetch
  import opened Dispatch
  import opened Store
  import opened ChatList

  /** The replies the command handlers send. */
  datatype Reply =
    | Welcome | NotAuthorized
    | OnlyAdminsAdd | AlreadyRegistered | Added(chat: string) | AddUsage
    | OnlyAdminsRemove | Removed(chat: string) | NotFound | RemoveUsage
    | OnlyAdminsView | Registered(chats: seq<string>)

  /** `sep.join(parts)`. */
  function Join(parts: seq<string>, sep: string): string {
    if parts == [] then ""
    else if |parts| == 1 then parts[0]
    else parts[0] + sep + Join(parts[1..], sep)
  }

  /** The text of each reply, as the source writes it. */
  function ReplyText(r: Reply): string {
    match r
    case Welcome =>
      "Welcome Admin!\nCommands:\n/add_chat <chat_id>\n/remove_chat <chat_id>\n/list_chats\n\n" +
      "Bot will forward new OTPs to registered chat IDs."
    case NotAuthorized => "You are not authorized to use admin commands."
    case OnlyAdminsAdd => "Only admins can add chat IDs."
    case AlreadyRegistered => "Chat ID already registered."
    case Added(c) => "Added chat ID: " + c
    case AddUsage => "Usage: /add_chat <chat_id>"
    case OnlyAdminsRemove => "Only admins can remove chat IDs."
    case Removed(c) => "Removed chat ID: " + c
    case NotFound => "Chat ID not found."
    case RemoveUsage => "Usage: /remove_chat <chat_id>"
    case OnlyAdminsView => "Only admins can view chat IDs."
    case Registered(cs) => "Registered chat IDs:\n" + Join(cs, "\n")
  }

  /** What the upstream portal does in one cycle: a request raises before the
      dashboard (caught at line 266), or the login POST ends at `finalUrl`, the
      dashboard has or lacks the `csrf-token` meta tag, and the scrape yields. */
  datatype Portal =
    | RequestFailed
    | LoginResponse(finalUrl: string, csrfMeta: bool, scrape: Scrape)

  /** Line 241: the login failed when the final URL still mentions "login". */
  predicate LoginRejected(url: string) {
    IsSubstring("login", Lower(url))
  }

  /** The cycle stops before `fetch_sms_from_api` is called. */
  predicate AbortsBeforeFetch(portal: Portal) {
    portal.RequestFailed? || LoginRejected(portal.finalUrl) || !portal.csrfMeta
  }

  /** The messages the loop at line 255 walks over; `[]` when the cycle stops early,
      which is also where line 252 returns. */
  function Forwardable(portal: Portal, hash: string -> int): seq<Message> {
    if AbortsBeforeFetch(portal) then [] else Fetched(portal.scrape, hash)
  }

  class OtpBot {
    /** `ADMIN_CHAT_IDS`, parsed from the environment. */
    const admins: seq<string>
    /** The module-level `INITIAL_CHAT_IDS` list. `load_chat_ids` returns this very
        list when the file is missing or unreadable, so the in-place `append` and
        `remove` of the commands then edit it too. */
    var initialChatIds: seq<string>
    /** `CHAT_IDS_FILE` and `STATE_FILE`. */
    var chatFile: FileState<seq<string>>
    var stateFile: FileState<set<string>>
    /** Every send attempt so far, in order. */
    ghost var sendLog: seq<Delivery>
    /** Every value `save_processed_ids` wrote, in order. */
    ghost var stateSaves: seq<set<string>>

    constructor (admins: seq<string>, initialChatIds: seq<string>,
                 chatFile: FileState<seq<string>>, stateFile: FileState<set<string>>)
      ensures this.admins == admins && this.initialChatIds == initialChatIds
      ensures this.chatFile == chatFile && this.stateFile == stateFile
      ensures sendLog == [] && stateSaves == []
    {
      this.admins := admins;
      this.initialChatIds := initialChatIds;
      this.chatFile := chatFile;
      this.stateFile := stateFile;
      sendLog := [];
      stateSaves := [];
    }

    /** `load_chat_ids`. */
    method LoadChatIds() returns (ids: seq<string>)
      modifies this`chatFile
      ensures ids == LoadedChatIds(old(chatFile), initialChatIds)
      ensures chatFile == ChatFileAfterLoad(old(chatFile), initialChatIds)
    {
      match chatFile
      case Missing =>
        chatFile := Stored(initialChatIds);
        ids := initialChatIds;
      case Corrupt =>
        ids := initialChatIds;
      case Stored(content) =>
        ids := content;
    }

    /** `save_chat_ids`. */
    method SaveChatIds(ids: seq<string>)
      modifies this`chatFile
      ensures chatFile == Stored(ids)
    {
      chatFile := Stored(ids);
    }

    /** `load_processed_ids`: the stored set, or the empty set for a missing or
        unreadable file. */
    method LoadProcessedIds() returns (processed: set<string>)
      ensures processed == LoadedProcessed(stateFile)
    {
      processed := if stateFile.Stored? then stateFile.content else {};
    }

    /** `save_processed_ids`. */
    method SaveProcessedIds(processed: set<string>)
      modifies this`stateFile, this`stateSaves
      ensures stateFile == Stored(processed)
      ensures stateSaves == old(stateSaves) + [processed]
    {
      stateFile := Stored(processed);
      stateSaves := stateSaves + [processed];
    }

    /** `/start`: help for admins, a refusal for everybody else. */
    method Start(user: string) returns (reply: Reply)
      ensures user in admins <==> reply == Welcome
      ensures user !in admins <==> reply == NotAuthorized
    {
      if user in admins {
        reply := Welcome;
      } else {
        reply := NotAuthorized;
      }
    }

    /** `/add_chat <chat_id>`. */
    method AddChat(user: string, args: seq<string>) returns (reply: Reply)
      modifies this`chatFile, this`initialChatIds
      ensures user !in admins ==>
                reply == OnlyAdminsAdd && chatFile == old(chatFile) && initialChatIds == old(initialChatIds)
      ensures user in admins && args == [] ==>
                reply == AddUsage && chatFile == old(chatFile) && initialChatIds == old(initialChatIds)
      ensures user in admins && args != [] ==>
                var ids := LoadedChatIds(old(chatFile), old(initialChatIds));
                LoadedChatIds(chatFile, initialChatIds) == Register(ids, args[0]) &&
                if args[0] in ids then
                  reply == AlreadyRegistered && initialChatIds == old(initialChatIds) &&
                  chatFile == ChatFileAfterLoad(old(chatFile), old(initialChatIds))
                else
                  reply == Added(args[0]) && chatFile == Stored(ids + [args[0]]) &&
                  initialChatIds == (if old(chatFile).Stored? then old(initialChatIds) else ids + [args[0]])
    {
      if user !in admins {
        return OnlyAdminsAdd;
      }
      if args == [] {
        return AddUsage;
      }
      var newChat := args[0];
      var aliased := !chatFile.Stored?;
      var ids := LoadChatIds();
      if newChat in ids {
        return AlreadyRegistered;
      }
      ids := ids + [newChat];
      if aliased {
        initialChatIds := ids;
      }
      SaveChatIds(ids);
      reply := Added(newChat);
    }

    /** `/remove_chat <chat_id>`. */
    method RemoveChat(user: string, args: seq<string>) returns (reply: Reply)
      modifies this`chatFile, this`initialChatIds
      ensures user !in admins ==>
                reply == OnlyAdminsRemove && chatFile == old(chatFile) && initialChatIds == old(initialChatIds)
      ensures user in admins && args == [] ==>
                reply == RemoveUsage && chatFile == old(chatFile) && initialChatIds == old(initialChatIds)
      ensures user in admins && args != [] ==>
                var ids := LoadedChatIds(old(chatFile), old(initialChatIds));
                LoadedChatIds(chatFile, initialChatIds) == RemoveFirst(ids, args[0]) &&
                if args[0] in ids then
                  reply == Removed(args[0]) && chatFile == Stored(RemoveFirst(ids, args[0])) &&
                  initialChatIds == (if old(chatFile).Stored? then old(initialChatIds) else RemoveFirst(ids, args[0]))
                else
                  reply == NotFound && initialChatIds == old(initialChatIds) &&
                  chatFile == ChatFileAfterLoad(old(chatFile), old(initialChatIds))
    {
      if user !in admins {
        return OnlyAdminsRemove;
      }
      if args == [] {
        return RemoveUsage;
      }
      var rem := args[0];
      var aliased := !chatFile.Stored?;
      var ids := LoadChatIds();
      if rem in ids {
        ids := RemoveFirst(ids, rem);
        if aliased {
          initialChatIds := ids;
        }
        SaveChatIds(ids);
        reply := Removed(rem);
      } else {
        RemoveAbsent(ids, rem);
        reply := NotFound;
      }
    }

    /** `/list_chats`. */
    method ListChats(user: string) returns (reply: Reply)
      modifies this`chatFile
      ensures user !in admins ==> reply == OnlyAdminsView && chatFile == old(chatFile)
      ensures user in admins ==>
                reply == Registered(LoadedChatIds(old(chatFile), initialChatIds)) &&
                chatFile == ChatFileAfterLoad(old(chatFile), initialChatIds)
    {
      if user !in admins {
        return OnlyAdminsView;
      }
      var ids := LoadChatIds();
      reply := Registered(ids);
    }

    /** `send_telegram_message`: one attempt, logged with its outcome; a failure is
        caught inside and never reaches the caller. */
    method Send(chat: string, m: Message, net: (string, Message) -> bool)
      modifies this`sendLog
      ensures sendLog == old(sendLog) + [Delivery(chat, m.id, net(chat, m))]
    {
      sendLog := sendLog + [Delivery(chat, m.id, net(chat, m))];
    }

    /** The inner loop at lines 259-263: one attempt per destination, in order. */
    method SendToAll(chatIds: seq<string>, msg: Message, net: (string, Message) -> bool)
      modifies this`sendLog
      ensures sendLog == old(sendLog) + Deliveries(chatIds, msg, net)
    {
      var j := 0;
      while j < |chatIds|
        invariant 0 <= j <= |chatIds|
        invariant sendLog == old(sendLog) + Deliveries(chatIds[..j], msg, net)
      {
        Send(chatIds[j], msg, net);
        assert Deliveries(chatIds[..j + 1], msg, net) ==
               Deliveries(chatIds[..j], msg, net) + [Delivery(chatIds[j], msg.id, net(chatIds[j], msg))];
        j := j + 1;
      }
      assert chatIds[..|chatIds|] == chatIds;
    }

    /** The outer loop at lines 255-264: skip processed ids, send the rest to every
        destination, and mark each id once its sends were attempted. */
    method ForwardNew(messages: seq<Message>, chatIds: seq<string>, seen: set<string>,
                      net: (string, Message) -> bool)
      returns (processed: set<string>)
      modifies this`sendLog
      ensures processed == seen + IdsOf(messages)
      ensures sendLog == old(sendLog) + FanOut(messages, chatIds, seen, net)
    {
      processed := seen;
      ghost var log0 := sendLog;
      var i := 0;
      while i < |messages|
        invariant 0 <= i <= |messages|
        invariant processed == seen + IdsOf(messages[..i])
        invariant sendLog == log0 + FanOut(messages[..i], chatIds, seen, net)
      {
        var msg := messages[i];
        FanOutStep(messages, i, chatIds, seen, net);
        if msg.id !in processed {
          SendToAll(chatIds, msg, net);
          processed := processed + {msg.id};
        }
        i := i + 1;
      }
      assert messages[..|messages|] == messages;
    }

    /** One run of `check_sms_job`. */
    method CheckSmsJob(portal: Portal, hash: string -> int, net: (string, Message) -> bool)
      modifies this`chatFile, this`stateFile, this`sendLog, this`stateSaves
      ensures chatFile == ChatFileAfterLoad(old(chatFile), initialChatIds)
      ensures AbortsBeforeFetch(portal) ==>
                stateFile == old(stateFile) && sendLog == old(sendLog) && stateSaves == old(stateSaves)
      ensures var msgs := Forwardable(portal, hash);
              var seen := LoadedProcessed(old(stateFile));
              var chats := LoadedChatIds(old(chatFile), initialChatIds);
              if msgs == [] then
                stateFile == old(stateFile) && sendLog == old(sendLog) && stateSaves == old(stateSaves)
              else
                stateFile == Stored(seen + IdsOf(msgs)) &&
                stateSaves == old(stateSaves) + [seen + IdsOf(msgs)] &&
                sendLog == old(sendLog) + FanOut(msgs, chats, seen, net)
    {
      var processed := LoadProcessedIds();
      var chatIds := LoadChatIds();
      if portal.RequestFailed? {
        return;
      }
      if LoginRejected(portal.finalUrl) {
        return;
      }
      if !portal.csrfMeta {
        return;
      }
      var messages := FetchSms(portal.scrape, hash);
      if messages == [] {
        return;
      }
      processed := ForwardNew(messages, chatIds, processed, net);
      SaveProcessedIds(processed);
    }
  }
}
