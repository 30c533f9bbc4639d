/** The replicated log with its snapshot offset, the durable storage behind it and the
    key-value state machine (log.py, storage.py, state_machine.py). */
module RaftLogs {
  import opened Wrappers

  datatype Id = NodeId(name: string)

  /** What a client submits; `Other` is any operation name the store does not know. */
  datatype Command =
    | Set(key: string, value: string)
    | Get(key: string)
    | Delete(key: string)
    | Other(op: string)

  type Store = map<string, string>

  datatype Reply =
    | Stored(key: string)
    | Fetched(value: Option<string>)
    | Deleted(found: bool)
    | UnknownOperation(op: string)

  function ApplyCommand(store: Store, c: Command): (Store, Reply) {
    match c
    case Set(k, v) => (store[k := v], Stored(k))
    case Get(k) => (store, Fetched(if k in store then Some(store[k]) else None))
    case Delete(k) => if k in store then (store - {k}, Deleted(true)) else (store, Deleted(false))
    case Other(op) => (store, UnknownOperation(op))
  }

  datatype Entry = Entry(term: nat, index: nat, command: Command)

  /** The store after applying a whole log, oldest entry first. */
  function ApplyLog(log: seq<Entry>): Store {
    if log == [] then map[]
    else ApplyCommand(ApplyLog(log[..|log| - 1]), log[|log| - 1].command).0
  }

  /** What the last command on `key` in the log left there. */
  function LastWrite(log: seq<Entry>, key: string): Option<string> {
    if log == [] then None
    else match log[|log| - 1].command
         case Set(k, v) => if k == key then Some(v) else LastWrite(log[..|log| - 1], key)
         case Delete(k) => if k == key then None else LastWrite(log[..|log| - 1], key)
         case _ => LastWrite(log[..|log| - 1], key)
  }

  /** The store holds exactly the last writes of the log. */
  lemma {:induction false} StoreHoldsLastWrites(log: seq<Entry>, key: string)
    ensures (if key in ApplyLog(log) then Some(ApplyLog(log)[key]) else None) == LastWrite(log, key)
  {
    if log != [] {
      StoreHoldsLastWrites(log[..|log| - 1], key);
    }
  }

  /** Replies tell the last writes: on the store of any log a read returns the key's last write, a delete
      says whether there was one, and an operation the store does not know is refused by its name. */
  lemma {:induction false} RepliesTellLastWrites(log: seq<Entry>, c: Command)
    ensures var r := ApplyCommand(ApplyLog(log), c);
            && (c.Set? ==> r.1 == Stored(c.key))
            && (c.Get? ==> r == (ApplyLog(log), Fetched(LastWrite(log, c.key))))
            && (c.Delete? ==> r.1 == Deleted(LastWrite(log, c.key).Some?))
            && (c.Other? ==> r == (ApplyLog(log), UnknownOperation(c.op)))
  {
    match c
    case Get(k) => StoreHoldsLastWrites(log, k);
    case Delete(k) => StoreHoldsLastWrites(log, k);
    case _ =>
  }

  /** Term of the entry at a 1-based index of an uncompacted log; index 0 has term 0. */
  function TermOf(log: seq<Entry>, i: nat): nat
    requires i <= |log|
  {
    if i == 0 then 0 else log[i - 1].term
  }

  /** The value of a `RaftLog`: the stored entries follow the snapshot at `lastIncludedIndex`. */
  datatype LogState = LogState(entries: seq<Entry>, lastIncludedIndex: nat, lastIncludedTerm: nat) {

    function Length(): nat {
      lastIncludedIndex + |entries|
    }

    predicate Holds(i: nat) {
      lastIncludedIndex < i <= Length()
    }

    function At(i: nat): Entry
      requires Holds(i)
    {
      entries[i - lastIncludedIndex - 1]
    }

    /** Below the snapshot the answer is only an approximation: the snapshot's own term. */
    function TermAt(i: nat): nat
      requires i <= Length()
    {
      if i == 0 then 0
      else if i <= lastIncludedIndex then lastIncludedTerm
      else At(i).term
    }

    function Append(e: Entry): LogState {
      this.(entries := entries + [e])
    }

    function From(start: nat): seq<Entry> {
      var k := if start <= lastIncludedIndex then 0 else start - lastIncludedIndex - 1;
      if k <= |entries| then entries[k..] else []
    }

    function Truncate(i: nat): LogState {
      if i <= lastIncludedIndex || Length() < i then this
      else this.(entries := entries[..i - lastIncludedIndex - 1])
    }

    predicate Matches(prevIndex: nat, prevTerm: nat) {
      prevIndex == 0 || (prevIndex <= Length() && TermAt(prevIndex) == prevTerm)
    }

    function Compact(lastIndex: nat, lastTerm: nat): LogState {
      if lastIndex <= lastIncludedIndex then this
      else LogState(if lastIndex < Length() then entries[lastIndex - lastIncludedIndex..] else [],
                    lastIndex, lastTerm)
    }

    /** The log stands for the uncompacted log `full`: it stores a suffix of `full` and knows
        the term of the last entry it dropped. */
    ghost predicate Represents(full: seq<Entry>) {
      && lastIncludedIndex <= |full|
      && entries == full[lastIncludedIndex..]
      && lastIncludedTerm == TermOf(full, lastIncludedIndex)
    }
  }

  datatype Snapshot = Snapshot(state: Store, index: nat, term: nat)

  /** What survives a crash. */
  class Storage {
    var currentTerm: nat
    var votedFor: Option<Id>
    var log: seq<Entry>
    var snapshot: Option<Snapshot>

    constructor ()
      ensures currentTerm == 0 && votedFor == None && log == [] && snapshot == None
    {
      currentTerm, votedFor, log, snapshot := 0, None, [], None;
    }
  }

  class RaftLog {
    const storage: Storage
    var entries: seq<Entry>
    var lastIncludedIndex: nat
    var lastIncludedTerm: nat

    ghost function View(): LogState
      reads this
    {
      LogState(entries, lastIncludedIndex, lastIncludedTerm)
    }

    /** Every entry and the snapshot position are on disk. */
    ghost predicate Valid()
      reads this, storage
    {
      && storage.log == entries
      && match storage.snapshot
         case None => lastIncludedIndex == 0 && lastIncludedTerm == 0
         case Some(s) => lastIncludedIndex == s.index && lastIncludedTerm == s.term
    }

    constructor (storage: Storage)
      ensures Valid() && this.storage == storage
      ensures View().entries == storage.log
    {
      this.storage := storage;
      entries := storage.log;
      match storage.snapshot
      case None => lastIncludedIndex, lastIncludedTerm := 0, 0;
      case Some(s) => lastIncludedIndex, lastIncludedTerm := s.index, s.term;
    }

    function Length(): (n: nat)
      reads this
      ensures n == View().Length()
    {
      lastIncludedIndex + |entries|
    }

    /** `None` is the IndexError of an index inside the snapshot or past the end. */
    function GetItem(index: nat): (r: Option<Entry>)
      reads this
      ensures r == if View().Holds(index) then Some(View().At(index)) else None
      ensures r == if lastIncludedIndex < index <= Length() then Some(entries[index - lastIncludedIndex - 1]) else None
    {
      if index <= lastIncludedIndex then None
      else if index - lastIncludedIndex - 1 >= |entries| then None
      else Some(entries[index - lastIncludedIndex - 1])
    }

    function GetTerm(index: nat): (r: Option<nat>)
      reads this
      ensures r == if index <= View().Length() then Some(View().TermAt(index)) else None
      ensures index == 0 ==> r == Some(0)
      ensures 0 < index <= lastIncludedIndex ==> r == Some(lastIncludedTerm)
      ensures lastIncludedIndex < index <= Length() ==> r == Some(entries[index - lastIncludedIndex - 1].term)
      ensures Length() < index ==> r == None
    {
      if index == 0 then Some(0)
      else if index == lastIncludedIndex then Some(lastIncludedTerm)
      else if index < lastIncludedIndex then Some(lastIncludedTerm)
      else match GetItem(index) { case Some(e) => Some(e.term) case None => None }
    }

    function GetEntries(startIndex: nat): (r: seq<Entry>)
      reads this
      ensures r == View().From(startIndex)
      ensures startIndex <= lastIncludedIndex + 1 ==> r == entries
      ensures lastIncludedIndex < startIndex <= Length() + 1 ==> r == entries[startIndex - lastIncludedIndex - 1..]
      ensures Length() < startIndex ==> r == []
    {
      var start := if startIndex <= lastIncludedIndex then lastIncludedIndex + 1 else startIndex;
      var internalStart := start - lastIncludedIndex - 1;
      if internalStart <= |entries| then entries[internalStart..] else []
    }

    predicate MatchLog(prevIndex: nat, prevTerm: nat)
      reads this
      ensures MatchLog(prevIndex, prevTerm) == View().Matches(prevIndex, prevTerm)
    {
      if prevIndex == 0 then true
      else if prevIndex > Length() then false
      else GetTerm(prevIndex) == Some(prevTerm)
    }

    method Append(entry: Entry)
      requires Valid()
      modifies this, storage`log
      ensures Valid() && View() == old(View()).Append(entry) && entries == old(entries) + [entry]
      ensures unchanged(`lastIncludedIndex, `lastIncludedTerm)
    {
      entries := entries + [entry];
      storage.log := entries;
    }

    method Truncate(index: nat)
      requires Valid()
      modifies this, storage`log
      ensures Valid() && View() == old(View()).Truncate(index)
      ensures lastIncludedIndex < index <= old(Length()) ==> Length() == index - 1 && entries <= old(entries)
      ensures index <= lastIncludedIndex || old(Length()) < index ==> entries == old(entries)
      ensures unchanged(`lastIncludedIndex, `lastIncludedTerm)
    {
      if index <= lastIncludedIndex {
        return;
      }
      var internalIndex := index - lastIncludedIndex - 1;
      if internalIndex < |entries| {
        entries := entries[..internalIndex];
        storage.log := entries;
      }
    }

    method Compact(lastIndex: nat, lastTerm: nat, state: Store)
      requires Valid()
      modifies this, storage`log, storage`snapshot
      ensures Valid() && View() == old(View()).Compact(lastIndex, lastTerm)
      ensures lastIndex <= old(lastIncludedIndex) ==> View() == old(View())
      ensures lastIndex > old(lastIncludedIndex) ==> lastIncludedIndex == lastIndex && lastIncludedTerm == lastTerm
      ensures old(lastIncludedIndex) < lastIndex <= old(Length()) ==>
                entries == old(entries)[lastIndex - old(lastIncludedIndex)..]
      ensures lastIndex > old(lastIncludedIndex) && lastIndex > old(Length()) ==> entries == []
      ensures storage.snapshot == if lastIndex <= old(lastIncludedIndex) then old(storage.snapshot)
                                  else Some(Snapshot(state, lastIndex, lastTerm))
    {
      if lastIndex <= lastIncludedIndex {
        return;
      }
      var internalIndex := lastIndex - lastIncludedIndex - 1;
      if internalIndex < |entries| - 1 {
        entries := entries[internalIndex + 1..];
      } else {
        entries := [];
      }
      lastIncludedIndex := lastIndex;
      lastIncludedTerm := lastTerm;
      storage.snapshot := Some(Snapshot(state, lastIndex, lastTerm));
      storage.log := entries;
    }
  }

  class KeyValueStateMachine {
    var store: Store

    constructor ()
      ensures store == map[]
    {
      store := map[];
    }

    method Apply(c: Command) returns (r: Reply)
      modifies this
      ensures (store, r) == ApplyCommand(old(store), c)
      ensures c.Set? ==> store == old(store)[c.key := c.value] && r == Stored(c.key)
      ensures c.Get? ==> store == old(store) && r == Fetched(if c.key in store then Some(store[c.key]) else None)
      ensures c.Delete? ==> store == old(store) - {c.key} && r == Deleted(c.key in old(store))
      ensures c.Other? ==> store == old(store) && r == UnknownOperation(c.op)
    {
      match c
      case Set(k, v) =>
        store := store[k := v];
        r := Stored(k);
      case Get(k) =>
        r := Fetched(if k in store then Some(store[k]) else None);
      case Delete(k) =>
        if k in store {
          store := store - {k};
          r := Deleted(true);
        } else {
          r := Deleted(false);
        }
      case Other(op) =>
        r := UnknownOperation(op);
    }

    function TakeSnapshot(): Store
      reads this
    {
      store
    }

    method Restore(state: Store)
      modifies this
      ensures store == state
    {
      store := state;
    }
  }
}
