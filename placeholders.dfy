/**
 * `replacePlaceholders`, in both of its versions. The replacement map is a
 * sequence of (key, value) entries in the map's iteration order.
 */
module Placeholders {
  import opened JavaText

  /** Applies `Replace(_, key, value)` for every entry, first entry first. */
  function ReplaceEach(message: string, entries: seq<(string, string)>): string
    decreases |entries|
  {
    if entries == [] then message
    else
      var last := entries[|entries| - 1];
      Replace(ReplaceEach(message, entries[..|entries| - 1]), last.0, last.1)
  }

  /** The version without an early return: one literal replace-all per entry. */
  method ReplacePlaceholders(message: string, entries: seq<(string, string)>) returns (r: string)
    ensures r == ReplaceEach(message, entries)
    ensures entries == [] ==> r == message
  {
    r := message;
    var i := 0;
    while i < |entries|
      invariant 0 <= i <= |entries|
      invariant r == ReplaceEach(message, entries[..i])
    {
      assert entries[..i + 1][..i] == entries[..i];
      r := Replace(r, entries[i].0, entries[i].1);
      i := i + 1;
    }
    assert entries[..|entries|] == entries;
  }

  /** The version that returns an empty message at once, before looking at any entry. */
  method ReplacePlaceholdersEarlyReturn(message: string, entries: seq<(string, string)>) returns (r: string)
    ensures message == [] ==> r == []
    ensures message != [] ==> r == ReplaceEach(message, entries)
    ensures entries == [] ==> r == message
  {
    if message == [] {
      return message;
    }
    r := message;
    var i := 0;
    while i < |entries|
      invariant 0 <= i <= |entries|
      invariant r == ReplaceEach(message, entries[..i])
    {
      assert entries[..i + 1][..i] == entries[..i];
      r := Replace(r, entries[i].0, entries[i].1);
      i := i + 1;
    }
    assert entries[..|entries|] == entries;
  }

  /** Entries that map each non-empty key to itself leave every message unchanged. */
  lemma {:induction false} ReplaceEachSelfMapping(message: string, entries: seq<(string, string)>)
    requires forall k :: 0 <= k < |entries| ==> entries[k].0 != [] && entries[k].1 == entries[k].0
    ensures ReplaceEach(message, entries) == message
    decreases |entries|
  {
    if entries != [] {
      var last := entries[|entries| - 1];
      ReplaceEachSelfMapping(message, entries[..|entries| - 1]);
      ReplaceWithItself(message, last.0);
    }
  }

  /** With non-empty keys, the version without early return also maps "" to "". */
  lemma {:induction false} ReplaceEachOnEmpty(entries: seq<(string, string)>)
    requires forall k :: 0 <= k < |entries| ==> entries[k].0 != []
    ensures ReplaceEach([], entries) == []
    decreases |entries|
  {
    if entries != [] {
      ReplaceEachOnEmpty(entries[..|entries| - 1]);
    }
  }

  /**
   * The two versions differ only on an empty message with an empty key:
   * there the version without early return inserts the key's value.
   */
  lemma {:induction false} VersionsDifferOnEmptyKey(value: string)
    requires value != []
    ensures ReplaceEach([], [([], value)]) == value
  {
    var entries: seq<(string, string)> := [([], value)];
    assert entries[..0] == [];
  }
}
