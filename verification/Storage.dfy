/**
 The write primitive of internal/fsutil/fsutil.go. A directory has the entries
 every reader sees and, behind them, the states an unsynced directory may fall
 back to when power is lost: a suffix of its unsynced changes is dropped.

 Every call may be killed between any two of its steps.
 */
module Storage {

  /** Done: visible and durable. NotDurable: visible, the directory sync failed. */
  datatype Outcome = Done | Failed | NotDurable | Killed

  type Files = map<string, string>

  class Directory {
    var entries: Files
    var chain: seq<Files>

    ghost predicate Valid()
      reads this
    {
      chain != [] && chain[|chain| - 1] == entries
    }

    constructor (initial: Files)
      ensures Valid() && entries == initial && chain == [initial]
    {
      entries := initial;
      chain := [initial];
    }

    /**
     Replaces one entry through a private temporary and a rename. Whatever
     happens, readers see the old entry or the complete new one.
     */
    method AtomicWrite(name: string, content: string) returns (o: Outcome)
      requires Valid()
      modifies this
      ensures Valid()
      ensures Effect(old(entries), old(chain), old(entries)[name := content], o, entries, chain)
    {
      var staged := "";
      while |staged| < |content|
        invariant staged <= content
      {
        if * { return Killed; }
        var n :| 0 <= n <= |content| - |staged|;
        var failed := *;
        var from := |staged|;
        staged := staged + content[from..from + n];
        assert staged == content[..from + n];
        if failed || n == 0 { return Failed; }
      }
      if * { return Killed; }
      if * { return Failed; }
      assert staged == content;
      entries := entries[name := staged];
      chain := chain + [entries];
      o := FinishWithSync();
    }

    /** Removes one entry; an absent one still gets its parent synced. */
    method RemoveFile(name: string) returns (o: Outcome)
      requires Valid()
      modifies this
      ensures Valid()
      ensures Effect(old(entries), old(chain), old(entries) - {name}, o, entries, chain)
    {
      if * { return Killed; }
      if * { return Failed; }
      entries := entries - {name};
      chain := chain + [entries];
      o := FinishWithSync();
    }

    method FinishWithSync() returns (o: Outcome)
      requires Valid()
      modifies this`chain
      ensures Valid()
      ensures o == Done ==> chain == [entries]
      ensures o == NotDurable ==> chain == old(chain)
      ensures o == Killed ==> chain == old(chain) || chain == [entries]
      ensures o != Failed
    {
      if * { return Killed; }
      if * { return NotDurable; }
      chain := [entries];
      if * { return Killed; }
      return Done;
    }

    /** The directory sync alone. */
    method Sync() returns (o: Outcome)
      requires Valid()
      modifies this`chain
      ensures Valid()
      ensures o == Done ==> chain == [entries]
      ensures o == Failed ==> chain == old(chain)
      ensures chain == old(chain) || chain == [entries]
      ensures o != NotDurable
    {
      o := FinishWithSync();
      if o == NotDurable { o := Failed; }
    }

    /** Opens an entry in place, making an empty one if there is none; nothing is synced. */
    method Create(name: string) returns (o: Outcome)
      requires Valid()
      modifies this
      ensures Valid() && o != NotDurable
      ensures (entries == old(entries) && chain == old(chain)) ||
        (name !in old(entries) && entries == old(entries)[name := ""] && chain == old(chain) + [entries])
      ensures o == Done ==> name in entries
    {
      if * { return Killed; }
      if * { return Failed; }
      if name !in entries {
        entries := entries[name := ""];
        chain := chain + [entries];
      }
      if * { return Killed; }
      return Done;
    }

    /** A second name for an entry's content, only if that name is free; nothing is synced. */
    method Link(from: string, name: string) returns (o: Outcome)
      requires Valid() && from in entries
      modifies this
      ensures Valid() && o != NotDurable
      ensures (entries == old(entries) && chain == old(chain) && o != Done) ||
        (name !in old(entries) && entries == old(entries)[name := old(entries)[from]] &&
         chain == old(chain) + [entries] && o != Failed)
    {
      if * { return Killed; }
      if name in entries { return Failed; }
      if * { return Failed; }
      entries := entries[name := entries[from]];
      chain := chain + [entries];
      if * { return Killed; }
      return Done;
    }

    method PowerLoss() returns (kept: nat)
      requires Valid()
      modifies this
      ensures Valid() && kept < |old(chain)| && entries == old(chain)[kept] && chain == [entries]
    {
      kept :| kept < |chain|;
      entries := chain[kept];
      chain := [entries];
    }
  }

  /** What a replacing or removing call may leave behind, by its outcome. */
  ghost predicate Effect(
    before: Files, chain: seq<Files>, target: Files, o: Outcome, after: Files, chain': seq<Files>)
  {
    match o
    case Done => after == target && chain' == [target]
    case Failed => after == before && chain' == chain
    case NotDurable => after == target && chain' == chain + [target]
    case Killed =>
      (after == before && chain' == chain) ||
      (after == target && (chain' == chain + [target] || chain' == [target]))
  }
}
