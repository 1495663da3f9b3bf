/** The in-memory decision journal: one pointer to an immutable slice, replaced by compare-and-swap. */
module MemoryJournal {
  import opened Wrappers

  /** A recorded decision; what the journal never looks at is one payload. */
  datatype JournalEntry = JournalEntry(decisionID: string, optimizationRunID: string, payload: string)

  /** A published slice. Its identity is the pointer that compare-and-swap compares. */
  class Slice {
    const items: seq<JournalEntry>

    constructor (items: seq<JournalEntry>)
      ensures this.items == items
    {
      this.items := items;
    }
  }

  /** What other callers published before this one got through: each attempt is overtaken by one group of entries,
      until an attempt is not overtaken. */
  ghost function Overtaking(interference: seq<seq<JournalEntry>>): seq<JournalEntry> {
    if interference == [] || interference[0] == [] then []
    else interference[0] + Overtaking(interference[1..])
  }

  predicate Answers(e: JournalEntry, id: string) {
    e.decisionID == id || e.optimizationRunID == id
  }

  class MemoryJournal {
    var entries: Slice

    constructor ()
      ensures entries.items == []
    {
      entries := new Slice([]);
    }

    method CompareAndSwap(oldPtr: Slice, newPtr: Slice) returns (swapped: bool)
      modifies this
      ensures swapped <==> old(entries) == oldPtr
      ensures entries == if swapped then newPtr else old(entries)
    {
      swapped := entries == oldPtr;
      if swapped {
        entries := newPtr;
      }
    }

    /** Other callers publish. */
    method Interfere(others: seq<JournalEntry>)
      modifies this
      ensures entries.items == old(entries.items) + others
      ensures if others == [] then entries == old(entries) else fresh(entries)
    {
      if others != [] {
        entries := new Slice(entries.items + others);
      }
    }

    /** Appends one entry. Between each load and its swap, other callers may publish the next group of interference;
        the entry lands exactly once, after everything that overtook it. */
    method Record(entry: JournalEntry, interference: seq<seq<JournalEntry>>)
      modifies this
      ensures entries.items == old(entries.items) + Overtaking(interference) + [entry]
    {
      var attempt := 0;
      ghost var start, goal := entries.items, entries.items + Overtaking(interference);
      while true
        invariant 0 <= attempt <= |interference|
        invariant entries.items + Overtaking(interference[attempt..]) == goal
        decreases |interference| - attempt
      {
        var oldPtr := entries;
        var newPtr := new Slice(oldPtr.items + [entry]);
        var others := if attempt < |interference| then interference[attempt] else [];
        Interfere(others);
        var swapped := CompareAndSwap(oldPtr, newPtr);
        if swapped {
          return;
        }
        assert interference[attempt..][1..] == interference[attempt + 1..];
        attempt := attempt + 1;
      }
    }

    /** The earliest entry that carries the identifier, as its decision or as its run. */
    method GetEntry(id: string) returns (r: Option<JournalEntry>)
      ensures r.None? <==> forall e :: e in entries.items ==> e.decisionID != id && e.optimizationRunID != id
      ensures r.Some? ==>
        exists i ::
          && 0 <= i < |entries.items| && entries.items[i] == r.value
          && (r.value.decisionID == id || r.value.optimizationRunID == id)
          && forall k :: 0 <= k < i ==> entries.items[k].decisionID != id && entries.items[k].optimizationRunID != id
    {
      var i := 0;
      while i < |entries.items|
        invariant 0 <= i <= |entries.items|
        invariant forall k :: 0 <= k < i ==> !Answers(entries.items[k], id)
      {
        if Answers(entries.items[i], id) {
          return Some(entries.items[i]);
        }
        i := i + 1;
      }
      return None;
    }
  }
}
