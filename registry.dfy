/**
 The action registry: the insertion-ordered dictionary `_action_registry`
 that `register_action` fills, keyed by pattern and holding the handler and
 the match type. Entries are kept as a sequence in insertion order, which is
 the order a Python dict iterates in.
 */
module ActionRegistry {
  import opened Wrappers
  import opened Matching

  /** One `pattern: (func, match_type)` item of the registry. */
  datatype Entry<H> = Entry(pattern: string, kind: MatchType, handler: H)

  /** The registry's keys, in iteration order. */
  function Keys<H>(entries: seq<Entry<H>>): (keys: seq<string>)
    ensures |keys| == |entries|
    ensures forall i :: 0 <= i < |entries| ==> keys[i] == entries[i].pattern
  {
    seq(|entries|, i requires 0 <= i < |entries| => entries[i].pattern)
  }

  /** The keys of a non-empty registry: its first key, then the keys of the rest. */
  lemma KeysCons<H>(entries: seq<Entry<H>>)
    requires entries != []
    ensures Keys(entries) == [entries[0].pattern] + Keys(entries[1..])
  {
  }

  /** A dictionary holds each key at most once. */
  ghost predicate UniqueKeys<H>(entries: seq<Entry<H>>)
  {
    forall i, j :: 0 <= i < j < |entries| ==> entries[i].pattern != entries[j].pattern
  }

  /**
   `registry[key]`: the entry stored under `key`, or `None` where Python
   raises `KeyError`.
   */
  function Lookup<H>(entries: seq<Entry<H>>, key: string): (r: Option<Entry<H>>)
    ensures r.None? <==> key !in Keys(entries)
    ensures r.Some? ==> r.value in entries && r.value.pattern == key
  {
    if entries == [] then None
    else if entries[0].pattern == key then Some(entries[0])
    else
      KeysCons(entries);
      Lookup(entries[1..], key)
  }

  /**
   `registry[e.pattern] = (e.handler, e.kind)`: the first item with the same key
   is overwritten where it stands; a new key goes to the end.
   */
  function Insert<H>(entries: seq<Entry<H>>, e: Entry<H>): seq<Entry<H>>
  {
    if entries == [] then [e]
    else if entries[0].pattern == e.pattern then [e] + entries[1..]
    else [entries[0]] + Insert(entries[1..], e)
  }

  /** The dictionary view: each key to its (handler, match type). */
  ghost function AsMap<H>(entries: seq<Entry<H>>): map<string, (H, MatchType)>
  {
    if entries == [] then map[]
    else AsMap(entries[1..])[entries[0].pattern := (entries[0].handler, entries[0].kind)]
  }

  /** A pattern not yet registered is appended after all earlier ones. */
  lemma InsertNew<H>(entries: seq<Entry<H>>, e: Entry<H>)
    requires e.pattern !in Keys(entries)
    ensures Insert(entries, e) == entries + [e]
  {
    InsertAbsent(entries, e);
  }

  lemma {:induction false} InsertAbsent<H>(entries: seq<Entry<H>>, e: Entry<H>)
    requires forall i :: 0 <= i < |entries| ==> entries[i].pattern != e.pattern
    ensures Insert(entries, e) == entries + [e]
  {
    if entries != [] {
      assert entries[0].pattern != e.pattern;
      InsertAbsent(entries[1..], e);
      assert entries == [entries[0]] + entries[1..];
    }
  }

  /** A pattern already registered keeps its position; only its value changes. */
  lemma {:induction false} InsertExisting<H>(entries: seq<Entry<H>>, e: Entry<H>, i: nat)
    requires UniqueKeys(entries)
    requires i < |entries| && entries[i].pattern == e.pattern
    ensures Insert(entries, e) == entries[i := e]
  {
    if i > 0 {
      InsertExisting(entries[1..], e, i - 1);
      assert entries[i := e] == [entries[0]] + entries[1..][i - 1 := e];
    } else {
      assert entries[0 := e] == [e] + entries[1..];
    }
  }

  /** Inserting keeps the keys unique, and the key order changes only by a new key at the end. */
  lemma {:induction false} InsertKeys<H>(entries: seq<Entry<H>>, e: Entry<H>)
    requires UniqueKeys(entries)
    ensures UniqueKeys(Insert(entries, e))
    ensures Keys(Insert(entries, e))
         == if e.pattern in Keys(entries) then Keys(entries) else Keys(entries) + [e.pattern]
  {
    if e.pattern in Keys(entries) {
      var i :| 0 <= i < |entries| && Keys(entries)[i] == e.pattern;
      InsertExisting(entries, e, i);
      assert Keys(entries[i := e]) == Keys(entries);
    } else {
      InsertNew(entries, e);
      assert Keys(entries + [e]) == Keys(entries) + [e.pattern];
    }
  }

  /** Seen as a dictionary, inserting sets one key and leaves every other key alone. */
  lemma {:induction false} InsertLookup<H>(entries: seq<Entry<H>>, e: Entry<H>, key: string)
    ensures Lookup(Insert(entries, e), key) == if key == e.pattern then Some(e) else Lookup(entries, key)
  {
    if entries != [] && entries[0].pattern != e.pattern {
      InsertLookup(entries[1..], e, key);
    }
  }

  /** The dictionary view after an insert is the old view updated at the one key. */
  lemma {:induction false} InsertAsMap<H>(entries: seq<Entry<H>>, e: Entry<H>)
    requires UniqueKeys(entries)
    ensures AsMap(Insert(entries, e)) == AsMap(entries)[e.pattern := (e.handler, e.kind)]
  {
    if entries != [] {
      if entries[0].pattern == e.pattern {
        assert Insert(entries, e)[1..] == entries[1..];
      } else {
        InsertAsMap(entries[1..], e);
        assert Insert(entries, e)[1..] == Insert(entries[1..], e);
      }
    }
  }

  /**
   The module-global registry object. Every control instance holds a
   reference to the same one, so a registration is seen by all of them.
   */
  class Registry<H> {
    var entries: seq<Entry<H>>

    ghost predicate Valid()
      reads this
    {
      UniqueKeys(entries)
    }

    /** `_action_registry = {}`. */
    constructor ()
      ensures Valid() && entries == []
    {
      entries := [];
    }

    /** The effect of the `register_action(pattern, kind)` decorator on `handler`. */
    method Register(pattern: string, kind: MatchType, handler: H)
      requires Valid()
      modifies this
      ensures Valid()
      ensures entries == Insert(old(entries), Entry(pattern, kind, handler))
      ensures pattern !in Keys(old(entries)) ==> entries == old(entries) + [Entry(pattern, kind, handler)]
      ensures forall i :: 0 <= i < |old(entries)| && old(entries)[i].pattern == pattern
                ==> entries == old(entries)[i := Entry(pattern, kind, handler)]
    {
      var e := Entry(pattern, kind, handler);
      InsertKeys(entries, e);
      if pattern !in Keys(entries) {
        InsertNew(entries, e);
      }
      forall i | 0 <= i < |entries| && entries[i].pattern == pattern
        ensures Insert(entries, e) == entries[i := e]
      {
        InsertExisting(entries, e, i);
      }
      entries := Insert(entries, e);
    }
  }
}
