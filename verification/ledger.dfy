/**
 * The crack ledger `crack_log.json`: `load_log_entries` (autoCrack.py:56-70)
 * and `append_log` (autoCrack.py:72-78). The file is a list of records; the
 * tool keeps the list in memory and rewrites the whole file after each append.
 */
module Ledger {

  /** One record: which hash was cracked under which mode, to what, and when. */
  datatype Entry = Entry(hash: string, modeId: string, clear: string, timestamp: string)

  /** The `(hash, mode_id)` a record answers for. */
  type Key = (string, string)

  function KeyOf(e: Entry): Key {
    (e.hash, e.modeId)
  }

  /** `{(entry["hash"], entry["mode_id"]) for entry in data}` */
  function KeysOf(entries: seq<Entry>): (keys: set<Key>)
    ensures forall i :: 0 <= i < |entries| ==> KeyOf(entries[i]) in keys
    ensures forall k :: k in keys ==> exists i :: 0 <= i < |entries| && KeyOf(entries[i]) == k
  {
    set e | e in entries :: KeyOf(e)
  }

  /**
   * The ledger file as `load_log_entries` finds it: absent, present but not a
   * list of records it can read (any exception while decoding or keying it),
   * or a list of records.
   */
  datatype LogFile = Missing | Unreadable | Records(entries: seq<Entry>)

  /** `load_log_entries`: the key set and the entry list; a missing or unreadable ledger is an empty one. */
  function Load(f: LogFile): (loaded: (set<Key>, seq<Entry>))
    ensures loaded.0 == KeysOf(loaded.1)
    ensures f.Records? ==> loaded.1 == f.entries
    ensures !f.Records? ==> loaded == ({}, [])
  {
    match f
    case Records(entries) => (KeysOf(entries), entries)
    case _ => ({}, [])
  }

  /** The key set follows the list: appending a record adds its key and nothing else. */
  lemma KeysOfAppend(entries: seq<Entry>, extra: seq<Entry>)
    ensures KeysOf(entries + extra) == KeysOf(entries) + KeysOf(extra)
  {
    var all := entries + extra;
    forall k | k in KeysOf(all) ensures k in KeysOf(entries) + KeysOf(extra) {
      var i :| 0 <= i < |all| && KeyOf(all[i]) == k;
      if i < |entries| {
        assert all[i] == entries[i];
      } else {
        assert all[i] == extra[i - |entries|];
      }
    }
    forall k | k in KeysOf(entries) + KeysOf(extra) ensures k in KeysOf(all) {
      if k in KeysOf(entries) {
        var i :| 0 <= i < |entries| && KeyOf(entries[i]) == k;
        assert all[i] == entries[i];
      } else {
        var i :| 0 <= i < |extra| && KeyOf(extra[i]) == k;
        assert all[|entries| + i] == extra[i];
      }
    }
  }

  /** The in-memory entry list `log_entries` together with the file it is saved to. */
  class CrackLog {
    var entries: seq<Entry>
    var file: LogFile

    /** The file, loaded again, gives back exactly the list in memory. */
    ghost predicate Valid()
      reads this
    {
      if file.Records? then file.entries == entries else entries == []
    }

    /** The `(hash, mode_id)` keys of the entries in memory. */
    function Keys(): (keys: set<Key>)
      reads this
      requires Valid()
      ensures keys == Load(file).0 && entries == Load(file).1
    {
      KeysOf(entries)
    }

    /** `load_log_entries` at start-up: the list as read from `f`. */
    constructor Open(f: LogFile)
      ensures Valid()
      ensures file == f && entries == Load(f).1
    {
      file := f;
      entries := Load(f).1;
    }

    /** `append_log`: add the entry at the end, then rewrite the file with the whole list. */
    method Append(e: Entry)
      requires Valid()
      modifies this
      ensures Valid()
      ensures entries == old(entries) + [e]
      ensures file == Records(entries)
      ensures Keys() == old(Keys()) + {KeyOf(e)}
    {
      KeysOfAppend(entries, [e]);
      entries := entries + [e];
      file := Records(entries);
    }
  }
}
