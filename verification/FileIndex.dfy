/** Looking files up by ID when a list may repeat IDs: on both sides the first entry wins. */
module FileIndex {
  import opened Wrappers
  import opened RtcMessages

  /** The linear scan both indexes replace; `key` reads an item's ID. */
  function First<T>(key: T -> string, items: seq<T>, id: string): (item: Option<T>)
    ensures item.Some? ==> item.value in items && key(item.value) == id
    ensures item.None? ==> forall i :: 0 <= i < |items| ==> key(items[i]) != id
  {
    if items == [] then None
    else if key(items[0]) == id then Some(items[0])
    else First(key, items[1..], id)
  }

  /** `index` answers exactly what the scan of `items` answers. */
  ghost predicate Indexes<T(!new)>(key: T -> string, index: map<string, T>, items: seq<T>) {
    forall id :: First(key, items, id) == if id in index then Some(index[id]) else None
  }

  lemma {:induction false} FirstSnoc<T>(key: T -> string, items: seq<T>, last: T, id: string)
    ensures First(key, items + [last], id) ==
            if First(key, items, id).Some? then First(key, items, id)
            else if key(last) == id then Some(last) else None
  {
    if items == [] {
      assert First(key, [last], id) == if key(last) == id then Some(last) else First(key, [last][1..], id);
    } else {
      FirstSnoc(key, items[1..], last, id);
      assert (items + [last])[1..] == items[1..] + [last];
    }
  }

  /** The loop of rebuildFileIndex and of prepareSendQueue. */
  method BuildIndex<T(!new)>(key: T -> string, items: seq<T>) returns (index: map<string, T>)
    ensures Indexes(key, index, items)
  {
    index := map[];
    for i := 0 to |items|
      invariant Indexes(key, index, items[..i])
    {
      forall id ensures First(key, items[..i + 1], id) ==
                        if First(key, items[..i], id).Some? then First(key, items[..i], id)
                        else if key(items[i]) == id then Some(items[i]) else None
      {
        assert items[..i] + [items[i]] == items[..i + 1];
        FirstSnoc(key, items[..i], items[i], id);
      }
      if key(items[i]) !in index {
        index := index[key(items[i]) := items[i]];
      }
    }
    assert items[..|items|] == items;
  }

  /** Not every ID need be there, but an entry is what the scan would find. */
  ghost predicate PartlyIndexes<T(!new)>(key: T -> string, index: map<string, T>, items: seq<T>) {
    forall id :: id in index ==> First(key, items, id) == Some(index[id])
  }

  const DtoID: FileDto -> string := (file: FileDto) => file.id
}
