/** The two JSON state files (otp_bot.py, lines 49-75) as abstract file states:
    reading and writing real files, and the JSON encoding, are not modelled. */
module Store {

  /** A state file: absent, present but unreadable (`json.load` raises), or holding
      a value. */
  datatype FileState<T> = Missing | Corrupt | Stored(content: T)

  /** What `load_chat_ids` returns: the stored list, or `INITIAL_CHAT_IDS` when the
      file is missing or unreadable. */
  function LoadedChatIds(f: FileState<seq<string>>, initial: seq<string>): seq<string> {
    if f.Stored? then f.content else initial
  }

  /** The chat-id file after `load_chat_ids`: a missing file is created holding
      `INITIAL_CHAT_IDS`; an unreadable one is left as it is. */
  function ChatFileAfterLoad(f: FileState<seq<string>>, initial: seq<string>): FileState<seq<string>> {
    if f.Missing? then Stored(initial) else f
  }

  /** What `load_processed_ids` returns: the stored set, or the empty set when the
      file is missing or unreadable (the file is never written by a load). */
  function LoadedProcessed(f: FileState<set<string>>): set<string> {
    if f.Stored? then f.content else {}
  }

  /** Loading twice is loading once: the second load sees what the first returned
      and writes nothing more. */
  lemma LoadIsStable(f: FileState<seq<string>>, initial: seq<string>)
    ensures LoadedChatIds(ChatFileAfterLoad(f, initial), initial) == LoadedChatIds(f, initial)
    ensures ChatFileAfterLoad(ChatFileAfterLoad(f, initial), initial) == ChatFileAfterLoad(f, initial)
  {
  }

  /** A save followed by a load gives back what was saved. */
  lemma SaveThenLoad(ids: seq<string>, initial: seq<string>, processed: set<string>)
    ensures LoadedChatIds(Stored(ids), initial) == ids
    ensures LoadedProcessed(Stored(processed)) == processed
  {
  }
}
