/**
 * The stateful half of the mock backend: named dicts and queues, each a name -> id map beside an
 * id -> object map. The functions say what one call does to a store's contents; the class updates
 * its four maps in place and is proved to do exactly that.
 */
module ObjectStoreSpec {
  import opened Wrappers
  import opened ByteStrings

  /** One kind of object: the lifecycle is the same for dicts and queues. */
  datatype Registry<T> = Registry(ids: map<string, string>, objects: map<string, T>)

  datatype View = View(dicts: Registry<map<Bytes, Bytes>>, queues: Registry<seq<Bytes>>)

  type Entry = (Bytes, Bytes)

  // ---- lifecycle ----

  function Resolve<T>(r: Registry<T>, name: string, create: bool, candidate: string, empty: T)
    : (Registry<T>, Option<string>)
  {
    if name in r.ids then (r, Some(r.ids[name]))
    else if !create then (r, None)
    else (Registry(r.ids[name := candidate], r.objects[candidate := empty]), Some(candidate))
  }

  function Delete<T>(r: Registry<T>, id: string): (Registry<T>, bool) {
    if id !in r.objects then (r, false)
    else (Registry(map n | n in r.ids && r.ids[n] != id :: r.ids[n], r.objects - {id}), true)
  }

  /** Names and live objects correspond one to one. */
  ghost predicate OneToOne<T>(r: Registry<T>) {
    && (forall n :: n in r.ids ==> r.ids[n] in r.objects)
    && (forall n, n' :: n in r.ids && n' in r.ids && r.ids[n] == r.ids[n'] ==> n == n')
    && (forall id :: id in r.objects ==> exists n :: n in r.ids && r.ids[n] == id)
  }

  /** A get-or-create keeps that exactly unless it creates under an id that is already live. */
  lemma ResolveKeepsOneToOne<T>(r: Registry<T>, name: string, create: bool, candidate: string, empty: T)
    requires OneToOne(r)
    ensures OneToOne(Resolve(r, name, create, candidate, empty).0) <==>
      name in r.ids || !create || candidate !in r.objects
  {
    var r' := Resolve(r, name, create, candidate, empty).0;
    if candidate in r.objects {
      var n :| n in r.ids && r.ids[n] == candidate;
      assert name !in r.ids && create ==> r'.ids[n] == r'.ids[name];
    } else {
      forall id | id in r'.objects ensures exists n :: n in r'.ids && r'.ids[n] == id {
        if id == candidate {
          assert name in r'.ids;
        } else {
          var n :| n in r.ids && r.ids[n] == id;
          assert n in r'.ids && r'.ids[n] == id;
        }
      }
    }
  }

  lemma DeleteKeepsOneToOne<T>(r: Registry<T>, id: string)
    requires OneToOne(r)
    ensures OneToOne(Delete(r, id).0)
  {
    var r' := Delete(r, id).0;
    forall o | o in r'.objects ensures exists n :: n in r'.ids && r'.ids[n] == o {
      var n :| n in r.ids && r.ids[n] == o;
      assert n in r'.ids;
    }
  }

  // ---- the batch write ----

  /** Writes the entries in order; the flag is whether every one of them inserted a new key. */
  function BatchUpdate(d: map<Bytes, Bytes>, entries: seq<Entry>, ifNotExists: bool): (map<Bytes, Bytes>, bool) {
    if entries == [] then (d, true)
    else
      var (before, created) := BatchUpdate(d, entries[..|entries| - 1], ifNotExists);
      var (key, value) := entries[|entries| - 1];
      if key !in before then (before[key := value], created)
      else (if ifNotExists then before else before[key := value], false)
  }

  lemma BatchUpdateSnoc(d: map<Bytes, Bytes>, init: seq<Entry>, e: Entry, ifNotExists: bool)
    ensures var (before, created) := BatchUpdate(d, init, ifNotExists);
      BatchUpdate(d, init + [e], ifNotExists)
        == (if e.0 in before && ifNotExists then before else before[e.0 := e.1], created && e.0 !in before)
  {
    assert (init + [e])[..|init|] == init;
  }

  /** A batch that reports `created` adds one key per entry. */
  lemma {:induction false} CreatedBatchGrows(d: map<Bytes, Bytes>, entries: seq<Entry>, ifNotExists: bool)
    requires BatchUpdate(d, entries, ifNotExists).1
    ensures |BatchUpdate(d, entries, ifNotExists).0| == |d| + |entries|
  {
    if entries != [] {
      CreatedBatchGrows(d, entries[..|entries| - 1], ifNotExists);
    }
  }

  predicate FirstAt(entries: seq<Entry>, i: nat) {
    i < |entries| && forall j :: 0 <= j < i ==> entries[j].0 != entries[i].0
  }

  predicate LastAt(entries: seq<Entry>, i: nat) {
    i < |entries| && forall j :: i < j < |entries| ==> entries[j].0 != entries[i].0
  }

  predicate Written(entries: seq<Entry>, key: Bytes) {
    exists i :: 0 <= i < |entries| && entries[i].0 == key
  }

  /** The flag holds exactly when the keys are pairwise distinct and none was there before. */
  predicate AllNew(d: map<Bytes, Bytes>, entries: seq<Entry>) {
    && (forall i, j :: 0 <= i < j < |entries| ==> entries[i].0 != entries[j].0)
    && (forall i :: 0 <= i < |entries| ==> entries[i].0 !in d)
  }

  /** What a batch leaves under one key: the first write wins under `if_not_exists`, else the last; unwritten keys stay. */
  ghost predicate MeaningAt(d: map<Bytes, Bytes>, entries: seq<Entry>, ifNotExists: bool, d': map<Bytes, Bytes>, key: Bytes) {
    && (key in d' <==> key in d || Written(entries, key))
    && (key in d && (ifNotExists || !Written(entries, key)) ==> key in d' && d'[key] == d[key])
    && (ifNotExists && key !in d ==>
          forall i: nat :: FirstAt(entries, i) && entries[i].0 == key ==> key in d' && d'[key] == entries[i].1)
    && (!ifNotExists ==>
          forall i: nat :: LastAt(entries, i) && entries[i].0 == key ==> key in d' && d'[key] == entries[i].1)
  }

  lemma WrittenSnoc(init: seq<Entry>, last: Entry, key: Bytes)
    ensures Written(init + [last], key) <==> Written(init, key) || key == last.0
  {
    var entries := init + [last];
    assert entries[|init|] == last;
    if Written(init, key) {
      var i :| 0 <= i < |init| && init[i].0 == key;
      assert entries[i].0 == key;
    }
  }

  lemma FirstLastSnoc(init: seq<Entry>, last: Entry, i: nat)
    requires i < |init|
    ensures FirstAt(init + [last], i) <==> FirstAt(init, i)
    ensures LastAt(init + [last], i) <==> LastAt(init, i) && last.0 != init[i].0
  {
    var entries := init + [last];
    assert entries[|init|] == last;
    assert forall j :: 0 <= j < |init| ==> entries[j] == init[j];
  }

  lemma {:induction false} BatchUpdateAt(d: map<Bytes, Bytes>, entries: seq<Entry>, ifNotExists: bool, key: Bytes)
    ensures MeaningAt(d, entries, ifNotExists, BatchUpdate(d, entries, ifNotExists).0, key)
  {
    if entries != [] {
      var n := |entries| - 1;
      var init, last := entries[..n], entries[n];
      var d' := BatchUpdate(d, entries, ifNotExists).0;
      assert entries == init + [last];
      BatchUpdateAt(d, init, ifNotExists, key);
      WrittenSnoc(init, last, key);
      forall i: nat | FirstAt(entries, i) && entries[i].0 == key && ifNotExists && key !in d
        ensures key in d' && d'[key] == entries[i].1
      {
        if i < n {
          FirstLastSnoc(init, last, i);
        } else {
          assert forall j :: 0 <= j < n ==> init[j].0 == entries[j].0;
        }
      }
      forall i: nat | LastAt(entries, i) && entries[i].0 == key && !ifNotExists
        ensures key in d' && d'[key] == entries[i].1
      {
        if i < n {
          FirstLastSnoc(init, last, i);
        }
      }
    }
  }

  lemma {:induction false} BatchUpdateCreated(d: map<Bytes, Bytes>, entries: seq<Entry>, ifNotExists: bool)
    ensures BatchUpdate(d, entries, ifNotExists).1 <==> AllNew(d, entries)
  {
    if entries != [] {
      var n := |entries| - 1;
      var init, last := entries[..n], entries[n];
      BatchUpdateCreated(d, init, ifNotExists);
      BatchUpdateAt(d, init, ifNotExists, last.0);
      assert forall i :: 0 <= i < n ==> init[i] == entries[i];
      if AllNew(d, init) && last.0 !in d && !Written(init, last.0) {
        assert forall i :: 0 <= i < n ==> init[i].0 != last.0;
        assert AllNew(d, entries);
      }
      if AllNew(d, entries) {
        assert AllNew(d, init);
        assert !Written(init, last.0);
      }
    }
  }

  /** A batch means, key by key, what `MeaningAt` says, and reports `created` exactly when every key was new. */
  lemma BatchUpdateMeaning(d: map<Bytes, Bytes>, entries: seq<Entry>, ifNotExists: bool)
    ensures var (d', created) := BatchUpdate(d, entries, ifNotExists);
      && (forall key :: MeaningAt(d, entries, ifNotExists, d', key))
      && (created <==> AllNew(d, entries))
  {
    forall key ensures MeaningAt(d, entries, ifNotExists, BatchUpdate(d, entries, ifNotExists).0, key) {
      BatchUpdateAt(d, entries, ifNotExists, key);
    }
    BatchUpdateCreated(d, entries, ifNotExists);
  }

  /** The meaning leaves no choice: two stores that satisfy it are the same store. */
  lemma {:induction false} MeaningDetermines(d: map<Bytes, Bytes>, entries: seq<Entry>, ifNotExists: bool,
      d1: map<Bytes, Bytes>, d2: map<Bytes, Bytes>)
    requires forall key :: MeaningAt(d, entries, ifNotExists, d1, key) && MeaningAt(d, entries, ifNotExists, d2, key)
    ensures d1 == d2
  {
    forall key ensures (key in d1 <==> key in d2) && (key in d1 ==> d1[key] == d2[key]) {
      assert MeaningAt(d, entries, ifNotExists, d1, key) && MeaningAt(d, entries, ifNotExists, d2, key);
      if Written(entries, key) && (key !in d || !ifNotExists) {
        var i := FirstIndex(entries, key);
        var j := LastIndex(entries, key);
      }
    }
  }

  lemma {:induction false} FirstIndex(entries: seq<Entry>, key: Bytes) returns (i: nat)
    requires Written(entries, key)
    ensures FirstAt(entries, i) && entries[i].0 == key
  {
    i := 0;
    while entries[i].0 != key
      invariant i < |entries| && forall j :: 0 <= j < i ==> entries[j].0 != key
      decreases |entries| - i
    {
      i := i + 1;
    }
  }

  lemma {:induction false} LastIndex(entries: seq<Entry>, key: Bytes) returns (i: nat)
    requires Written(entries, key)
    ensures LastAt(entries, i) && entries[i].0 == key
  {
    i := |entries| - 1;
    while entries[i].0 != key
      invariant i < |entries| && forall j :: i < j < |entries| ==> entries[j].0 != key
      decreases i
    {
      i := i - 1;
    }
  }
}

module ObjectStores {
  import opened Wrappers
  import opened ByteStrings
  import opened ObjectStoreSpec

  class ObjectStore {
    var dictIds: map<string, string>
    var dicts: map<string, map<Bytes, Bytes>>
    var queueIds: map<string, string>
    var queues: map<string, seq<Bytes>>

    function Contents(): View
      reads this
    {
      View(Registry(dictIds, dicts), Registry(queueIds, queues))
    }

    constructor ()
      ensures Contents() == View(Registry(map[], map[]), Registry(map[], map[]))
    {
      dictIds, dicts, queueIds, queues := map[], map[], map[], map[];
    }

    method ResolveDict(name: string, create: bool, candidate: string) returns (r: Option<string>)
      modifies this
      ensures (Contents().dicts, r) == Resolve(old(Contents().dicts), name, create, candidate, map[])
      ensures Contents().queues == old(Contents().queues)
    {
      if name in dictIds {
        return Some(dictIds[name]);
      }
      if !create {
        return None;
      }
      dictIds := dictIds[name := candidate];
      dicts := dicts[candidate := map[]];
      return Some(candidate);
    }

    method ResolveQueue(name: string, create: bool, candidate: string) returns (r: Option<string>)
      modifies this
      ensures (Contents().queues, r) == Resolve(old(Contents().queues), name, create, candidate, [])
      ensures Contents().dicts == old(Contents().dicts)
    {
      if name in queueIds {
        return Some(queueIds[name]);
      }
      if !create {
        return None;
      }
      queueIds := queueIds[name := candidate];
      queues := queues[candidate := []];
      return Some(candidate);
    }

    method DeleteDict(id: string) returns (known: bool)
      modifies this
      ensures (Contents().dicts, known) == Delete(old(Contents().dicts), id)
      ensures Contents().queues == old(Contents().queues)
    {
      if id !in dicts {
        return false;
      }
      dicts := dicts - {id};
      dictIds := map n | n in dictIds && dictIds[n] != id :: dictIds[n];
      return true;
    }

    method DeleteQueue(id: string) returns (known: bool)
      modifies this
      ensures (Contents().queues, known) == Delete(old(Contents().queues), id)
      ensures Contents().dicts == old(Contents().dicts)
    {
      if id !in queues {
        return false;
      }
      queues := queues - {id};
      queueIds := map n | n in queueIds && queueIds[n] != id :: queueIds[n];
      return true;
    }

    /** `Err` is an unknown id throughout, and then nothing changes. */
    method DictGet(id: string, key: Bytes) returns (r: Result<Option<Bytes>, ()>)
      ensures r == if id !in dicts then Err(())
                   else Ok(if key in dicts[id] then Some(dicts[id][key]) else None)
    {
      if id !in dicts {
        return Err(());
      }
      return Ok(if key in dicts[id] then Some(dicts[id][key]) else None);
    }

    method DictUpdate(id: string, entries: seq<Entry>, ifNotExists: bool) returns (r: Result<bool, ()>)
      modifies this`dicts
      ensures id !in old(dicts) ==> r.Err? && dicts == old(dicts)
      ensures id in old(dicts) ==>
        && dicts == old(dicts)[id := BatchUpdate(old(dicts)[id], entries, ifNotExists).0]
        && r == Ok(BatchUpdate(old(dicts)[id], entries, ifNotExists).1)
    {
      if id !in dicts {
        return Err(());
      }
      var created := true;
      for i := 0 to |entries|
        invariant dicts.Keys == old(dicts).Keys
        invariant dicts == old(dicts)[id := BatchUpdate(old(dicts)[id], entries[..i], ifNotExists).0]
        invariant created == BatchUpdate(old(dicts)[id], entries[..i], ifNotExists).1
      {
        assert entries[..i + 1] == entries[..i] + [entries[i]];
        BatchUpdateSnoc(old(dicts)[id], entries[..i], entries[i], ifNotExists);
        hide BatchUpdate;
        var (key, value) := entries[i];
        if key in dicts[id] {
          created := false;
          if ifNotExists {
            continue;
          }
        }
        dicts := dicts[id := dicts[id][key := value]];
      }
      assert entries[..|entries|] == entries;
      return Ok(created);
    }

    method DictPop(id: string, key: Bytes) returns (r: Result<Option<Bytes>, ()>)
      modifies this`dicts
      ensures id !in old(dicts) ==> r.Err? && dicts == old(dicts)
      ensures id in old(dicts) ==>
        && dicts == old(dicts)[id := old(dicts)[id] - {key}]
        && r == Ok(if key in old(dicts)[id] then Some(old(dicts)[id][key]) else None)
    {
      if id !in dicts {
        return Err(());
      }
      r := Ok(if key in dicts[id] then Some(dicts[id][key]) else None);
      dicts := dicts[id := dicts[id] - {key}];
    }

    method DictContains(id: string, key: Bytes) returns (r: Result<bool, ()>)
      ensures r == if id !in dicts then Err(()) else Ok(key in dicts[id])
    {
      if id !in dicts {
        return Err(());
      }
      return Ok(key in dicts[id]);
    }

    method DictLen(id: string) returns (r: Result<nat, ()>)
      ensures r == if id !in dicts then Err(()) else Ok(|dicts[id]|)
    {
      if id !in dicts {
        return Err(());
      }
      return Ok(|dicts[id]|);
    }

    method DictClear(id: string) returns (r: Result<(), ()>)
      modifies this`dicts
      ensures id !in old(dicts) ==> r.Err? && dicts == old(dicts)
      ensures id in old(dicts) ==> r.Ok? && dicts == old(dicts)[id := map[]]
    {
      if id !in dicts {
        return Err(());
      }
      dicts := dicts[id := map[]];
      return Ok(());
    }

    method QueuePut(id: string, values: seq<Bytes>) returns (r: Result<(), ()>)
      modifies this`queues
      ensures id !in old(queues) ==> r.Err? && queues == old(queues)
      ensures id in old(queues) ==> r.Ok? && queues == old(queues)[id := old(queues)[id] + values]
    {
      if id !in queues {
        return Err(());
      }
      queues := queues[id := queues[id] + values];
      return Ok(());
    }

    /** One poll: the items taken and the items left are, in that order, the items that were there. */
    method QueuePop(id: string, n: nat) returns (r: Result<seq<Bytes>, ()>)
      modifies this`queues
      ensures id !in old(queues) ==> r.Err? && queues == old(queues)
      ensures id in old(queues) ==>
        && r.Ok? && id in queues && r.value + queues[id] == old(queues)[id]
        && (|r.value| == n || (|r.value| < n && queues[id] == []))
        && queues == old(queues)[id := queues[id]]
    {
      if id !in queues {
        return Err(());
      }
      var take := if n < |queues[id]| then n else |queues[id]|;
      r := Ok(queues[id][..take]);
      queues := queues[id := queues[id][take..]];
    }

    method QueueLen(id: string) returns (r: Result<nat, ()>)
      ensures r == if id !in queues then Err(()) else Ok(|queues[id]|)
    {
      if id !in queues {
        return Err(());
      }
      return Ok(|queues[id]|);
    }

    method QueueClear(id: string) returns (r: Result<(), ()>)
      modifies this`queues
      ensures id !in old(queues) ==> r.Err? && queues == old(queues)
      ensures id in old(queues) ==> r.Ok? && queues == old(queues)[id := []]
    {
      if id !in queues {
        return Err(());
      }
      queues := queues[id := []];
      return Ok(());
    }
  }
}
