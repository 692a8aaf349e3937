/** The nonce cache: a map into a recency list, against the history of what was put and hit. */
module NonceCache {
  import opened Wrappers

  datatype Entry = Entry(clientID: string, nonce: Bytes)

  // ---------- The recency list on values ----------

  /** The position of a client, or the length. */
  function Position(entries: seq<Entry>, id: string): (i: nat)
    ensures i <= |entries| && (i < |entries| ==> entries[i].clientID == id)
    ensures forall k :: 0 <= k < i ==> entries[k].clientID != id
  {
    if entries == [] then 0 else if entries[0].clientID == id then 0 else 1 + Position(entries[1..], id)
  }

  /** The list without the element at `i`. */
  function Drop<T>(list: seq<T>, i: nat): (rest: seq<T>)
    requires i < |list|
    ensures |rest| == |list| - 1
  {
    list[..i] + list[i + 1..]
  }

  /** The list with the element at `i` moved to the front. */
  function Front<T>(list: seq<T>, i: nat): (moved: seq<T>)
    requires i < |list|
    ensures |moved| == |list|
  {
    [list[i]] + Drop(list, i)
  }

  function AfterPut(entries: seq<Entry>, capacity: int, id: string, nonce: Bytes): seq<Entry> {
    var i := Position(entries, id);
    if i < |entries| then Front(entries, i)[0 := Entry(id, nonce)]
    else if |entries| + 1 > capacity then ([Entry(id, nonce)] + entries)[..|entries|]
    else [Entry(id, nonce)] + entries
  }

  function AfterGet(entries: seq<Entry>, id: string): seq<Entry> {
    var i := Position(entries, id);
    if i < |entries| then Front(entries, i) else entries
  }

  function Lookup(entries: seq<Entry>, id: string): Option<Bytes> {
    var i := Position(entries, id);
    if i < |entries| then Some(entries[i].nonce) else None
  }

  function AfterDelete(entries: seq<Entry>, id: string): seq<Entry> {
    var i := Position(entries, id);
    if i < |entries| then Drop(entries, i) else entries
  }

  lemma {:induction false} PositionIs(entries: seq<Entry>, id: string, i: nat)
    requires i <= |entries| && (i < |entries| ==> entries[i].clientID == id)
    requires forall k :: 0 <= k < i ==> entries[k].clientID != id
    ensures Position(entries, id) == i
  {
  }

  lemma FrontHolds<T>(list: seq<T>, i: nat)
    requires i < |list|
    ensures Front(list, i)[0] == list[i]
  {
  }

  // ---------- The cache ----------

  class Element {
    const clientID: string
    var nonce: Bytes

    constructor (clientID: string, nonce: Bytes)
      ensures this.clientID == clientID && this.nonce == nonce
    {
      this.clientID := clientID;
      this.nonce := nonce;
    }
  }

  function EntriesOf(elements: seq<Element>): (entries: seq<Entry>)
    reads elements
    ensures |entries| == |elements|
    ensures forall i :: 0 <= i < |elements| ==> entries[i] == Entry(elements[i].clientID, elements[i].nonce)
  {
    if elements == [] then [] else [Entry(elements[0].clientID, elements[0].nonce)] + EntriesOf(elements[1..])
  }

  /** Writing the first element's nonce changes the first entry alone. */
  method SetNonce(elements: seq<Element>, nonce: Bytes)
    requires elements != [] && elements[0] !in elements[1..]
    modifies elements[0]
    ensures EntriesOf(elements) == old(EntriesOf(elements))[0 := Entry(elements[0].clientID, nonce)]
  {
    ghost var rest := EntriesOf(elements[1..]);
    elements[0].nonce := nonce;
    assert EntriesOf(elements[1..]) == rest;
  }

  lemma EntriesConcat(a: seq<Element>, b: seq<Element>)
    ensures EntriesOf(a + b) == EntriesOf(a) + EntriesOf(b)
  {
    hide EntriesOf;
    forall k | 0 <= k < |a + b| ensures EntriesOf(a + b)[k] == (EntriesOf(a) + EntriesOf(b))[k] {
      assert (a + b)[k] == if k < |a| then a[k] else b[k - |a|];
    }
  }

  lemma EntriesSplit(elements: seq<Element>, i: nat)
    requires i <= |elements|
    ensures EntriesOf(elements[..i]) == EntriesOf(elements)[..i] && EntriesOf(elements[i..]) == EntriesOf(elements)[i..]
  {
    EntriesConcat(elements[..i], elements[i..]);
    assert elements[..i] + elements[i..] == elements;
    hide EntriesOf;
  }

  lemma EntriesDrop(elements: seq<Element>, i: nat)
    requires i < |elements|
    ensures EntriesOf(Drop(elements, i)) == Drop(EntriesOf(elements), i)
  {
    hide EntriesOf;
    EntriesSplit(elements, i);
    EntriesSplit(elements, i + 1);
    EntriesConcat(elements[..i], elements[i + 1..]);
  }

  lemma EntriesFront(elements: seq<Element>, i: nat)
    requires i < |elements|
    ensures EntriesOf(Front(elements, i)) == Front(EntriesOf(elements), i)
  {
    EntriesDrop(elements, i);
    assert EntriesOf([elements[i]]) == [EntriesOf(elements)[i]];
    hide EntriesOf, Drop;
    EntriesConcat([elements[i]], Drop(elements, i));
  }

  /** Map and list hold the same elements, each once. */
  ghost predicate Linked(cache: map<string, Element>, lru: seq<Element>) {
    && (forall id :: id in cache ==> cache[id] in lru && cache[id].clientID == id)
    && (forall i :: 0 <= i < |lru| ==> lru[i].clientID in cache && cache[lru[i].clientID] == lru[i])
    && (forall i, j :: 0 <= i < j < |lru| ==> lru[i] != lru[j])
  }

  lemma FrontLinked(cache: map<string, Element>, lru: seq<Element>, i: nat)
    requires Linked(cache, lru) && i < |lru|
    ensures Linked(cache, Front(lru, i))
  {
    var moved := Front(lru, i);
    forall e | e in lru ensures e in moved {
      var k :| 0 <= k < |lru| && lru[k] == e;
      assert moved[if k == i then 0 else if k < i then k + 1 else k] == e;
    }
  }

  lemma PushLinked(cache: map<string, Element>, lru: seq<Element>, elem: Element)
    requires Linked(cache, lru) && elem.clientID !in cache
    ensures Linked(cache[elem.clientID := elem], [elem] + lru)
  {
    var more := [elem] + lru;
    forall id | id in cache ensures cache[id] in more {
      var k :| 0 <= k < |lru| && lru[k] == cache[id];
      assert more[k + 1] == cache[id];
    }
    assert more[0] == elem;
  }

  lemma RemoveLinked(cache: map<string, Element>, lru: seq<Element>, i: nat)
    requires Linked(cache, lru) && i < |lru|
    ensures Linked(cache - {lru[i].clientID}, Drop(lru, i))
  {
    var left := Drop(lru, i);
    forall id | id in cache && id != lru[i].clientID ensures cache[id] in left {
      var k :| 0 <= k < |lru| && lru[k] == cache[id];
      assert left[if k < i then k else k - 1] == cache[id];
    }
  }

  class NonceCache {
    const capacity: int
    var cache: map<string, Element>
    var lru: seq<Element>

    ghost predicate Valid()
      reads this
    {
      Linked(cache, lru) && (lru == [] || |lru| <= capacity)
    }

    ghost function Entries(): seq<Entry>
      reads this, lru
    {
      EntriesOf(lru)
    }

    constructor (capacity: int)
      ensures Valid() && Entries() == [] && this.capacity == capacity
    {
      this.capacity := capacity;
      cache, lru := map[], [];
    }

    /** Where the list holds a tabled element. */
    method Find(elem: Element) returns (i: nat)
      requires Valid() && elem.clientID in cache && cache[elem.clientID] == elem
      ensures i < |lru| && lru[i] == elem && i == Position(Entries(), elem.clientID)
    {
      i := 0;
      while lru[i] != elem
        invariant 0 <= i < |lru| && elem !in lru[..i]
        decreases |lru| - i
      {
        i := i + 1;
      }
      PositionIs(Entries(), elem.clientID, i);
    }

    /** An unknown client is at no position. */
    lemma Absent(id: string)
      requires Valid() && id !in cache
      ensures Position(Entries(), id) == |lru|
    {
      PositionIs(Entries(), id, |lru|);
    }

    method MoveToFront(elem: Element)
      requires Valid() && elem.clientID in cache && cache[elem.clientID] == elem
      modifies this`lru
      ensures Valid() && lru != [] && lru[0] == elem
      ensures var i := Position(old(Entries()), elem.clientID); i < |old(lru)| && Entries() == Front(old(Entries()), i)
    {
      hide Linked, EntriesOf, Position, Front, Drop;
      var i := Find(elem);
      FrontHolds(lru, i);
      FrontLinked(cache, lru, i);
      EntriesFront(lru, i);
      lru := Front(lru, i);
    }

    method Put(clientID: string, nonce: Bytes)
      requires Valid()
      modifies this, lru
      ensures Valid() && Entries() == AfterPut(old(Entries()), capacity, clientID, nonce)
    {
      if clientID in cache {
        Refresh(clientID, nonce);
      } else {
        Insert(clientID, nonce);
      }
    }

    /** A known client: its element moves to the front and takes the new nonce. */
    method Refresh(clientID: string, nonce: Bytes)
      requires Valid() && clientID in cache
      modifies this`lru, lru
      ensures Valid() && Entries() == AfterPut(old(Entries()), capacity, clientID, nonce)
    {
      var elem := cache[clientID];
      assert elem in lru && elem.clientID == clientID;
      MoveToFront(elem);
      assert elem !in lru[1..];
      hide Linked, Position;
      SetNonce(lru, nonce);
    }

    /** A new client goes to the front; over capacity, the last one goes. */
    method Insert(clientID: string, nonce: Bytes)
      requires Valid() && clientID !in cache
      modifies this`lru, this`cache
      ensures Valid() && Entries() == AfterPut(old(Entries()), capacity, clientID, nonce)
    {
      Absent(clientID);
      hide Position, Linked;
      PushFront(clientID, nonce);
      if |lru| > capacity {
        EvictOldest();
      }
    }

    method PushFront(clientID: string, nonce: Bytes)
      requires Linked(cache, lru) && clientID !in cache
      modifies this`lru, this`cache
      ensures Linked(cache, lru) && Entries() == [Entry(clientID, nonce)] + old(Entries())
    {
      var elem := new Element(clientID, nonce);
      PushLinked(cache, lru, elem);
      hide Linked;
      ghost var before := lru;
      lru := [elem] + lru;
      cache := cache[clientID := elem];
      assert lru[1..] == before;
    }

    method EvictOldest()
      requires Linked(cache, lru) && |lru| > capacity && |lru| > 0 && (|lru| == 1 || |lru| == capacity + 1)
      modifies this`lru, this`cache
      ensures Valid() && Entries() == old(Entries())[..|old(Entries())| - 1]
    {
      hide Linked, EntriesOf;
      var last := |lru| - 1;
      RemoveLinked(cache, lru, last);
      EntriesSplit(lru, last);
      assert Drop(lru, last) == lru[..last];
      hide Drop;
      cache := cache - {lru[last].clientID};
      lru := lru[..last];
    }

    method Get(clientID: string) returns (nonce: Option<Bytes>)
      requires Valid()
      modifies this`lru
      ensures Valid() && Entries() == AfterGet(old(Entries()), clientID) && nonce == Lookup(old(Entries()), clientID)
    {
      if clientID !in cache {
        Absent(clientID);
        return None;
      }
      assert cache[clientID].clientID == clientID;
      hide Linked, Position, Drop;
      MoveToFront(cache[clientID]);
      FrontHolds(old(Entries()), Position(old(Entries()), clientID));
      return Some(lru[0].nonce);
    }

    method Delete(clientID: string)
      requires Valid()
      modifies this`lru, this`cache
      ensures Valid() && Entries() == AfterDelete(old(Entries()), clientID)
    {
      if clientID !in cache {
        Absent(clientID);
        return;
      }
      var i := Find(cache[clientID]);
      hide Linked, Position, Drop;
      Unlink(i);
    }

    /** The list's Remove, and the key with it. */
    method Unlink(i: nat)
      requires Valid() && i < |lru|
      modifies this`lru, this`cache
      ensures Valid() && Entries() == Drop(old(Entries()), i)
    {
      hide Linked, EntriesOf, Drop;
      RemoveLinked(cache, lru, i);
      EntriesDrop(lru, i);
      cache := cache - {lru[i].clientID};
      lru := Drop(lru, i);
    }
  }

  /** The entries of all other clients, in order. */
  function Without(entries: seq<Entry>, id: string): (others: seq<Entry>)
    ensures forall k :: 0 <= k < |others| ==> others[k].clientID != id && others[k] in entries
  {
    if entries == [] then []
    else (if entries[0].clientID == id then [] else [entries[0]]) + Without(entries[1..], id)
  }

  /** A deletion takes out the client's one entry and leaves the others as and where they were. */
  lemma {:induction false} DeleteExact(entries: seq<Entry>, id: string)
    requires forall i, j :: 0 <= i < j < |entries| ==> entries[i].clientID != entries[j].clientID
    ensures AfterDelete(entries, id) == Without(entries, id)
  {
    if entries != [] {
      DeleteExact(entries[1..], id);
      if entries[0].clientID == id {
        NothingToDelete(entries[1..], id);
      }
    }
  }

  lemma {:induction false} NothingToDelete(entries: seq<Entry>, id: string)
    requires forall k :: 0 <= k < |entries| ==> entries[k].clientID != id
    ensures Without(entries, id) == entries
  {
    if entries != [] {
      NothingToDelete(entries[1..], id);
    }
  }

  // ---------- The trace law ----------

  datatype Op = Put(id: string, nonce: Bytes) | Get(id: string)

  function AfterOp(entries: seq<Entry>, capacity: int, op: Op): seq<Entry> {
    match op
    case Put(id, nonce) => AfterPut(entries, capacity, id, nonce)
    case Get(id) => AfterGet(entries, id)
  }

  /** The entries after a run without deletions. */
  function Run(capacity: int, ops: seq<Op>): seq<Entry> {
    if ops == [] then [] else AfterOp(Run(capacity, ops[..|ops| - 1]), capacity, ops[|ops| - 1])
  }

  /** The clients put or hit, in order. */
  function Touched(capacity: int, ops: seq<Op>): seq<string> {
    if ops == [] then []
    else
      var n := |ops| - 1;
      var rest := Touched(capacity, ops[..n]);
      if ops[n].Put? || Lookup(Run(capacity, ops[..n]), ops[n].id).Some? then rest + [ops[n].id] else rest
  }

  /** The distinct clients touched since the last touch of `id`. */
  function Since(touched: seq<string>, id: string): set<string> {
    if touched == [] then {}
    else
      var last := touched[|touched| - 1];
      if last == id then {} else Since(touched[..|touched| - 1], id) + {last}
  }

  function LastPut(ops: seq<Op>, id: string): Option<Bytes> {
    if ops == [] then None
    else
      var n := |ops| - 1;
      if ops[n].Put? && ops[n].id == id then Some(ops[n].nonce) else LastPut(ops[..n], id)
  }

  function Ids(entries: seq<Entry>): (ids: seq<string>)
    ensures |ids| == |entries| && forall i :: 0 <= i < |ids| ==> ids[i] == entries[i].clientID
  {
    seq(|entries|, i requires 0 <= i < |entries| => entries[i].clientID)
  }

  function SetOf(ids: seq<string>): set<string> { set id | id in ids }

  /** The client at position `i` was touched before exactly the `i` clients ahead of it, and
      a client that was touched but is gone has at least `capacity` clients ahead of it. */
  ghost predicate Ordered(ids: seq<string>, capacity: int, touched: seq<string>) {
    && (ids == [] || |ids| <= capacity)
    && Distinct(ids) && (forall i :: 0 <= i < |ids| ==> InPlace(ids, touched, i))
    && (forall id :: id in touched && id !in ids ==> |Since(touched, id)| >= capacity)
  }

  lemma SinceSnoc(touched: seq<string>, last: string, id: string)
    ensures Since(touched + [last], id) == if last == id then {} else Since(touched, id) + {last}
  {
    assert (touched + [last])[..|touched|] == touched;
  }

  lemma {:induction false} SetOfSize(ids: seq<string>)
    requires forall i, j :: 0 <= i < j < |ids| ==> ids[i] != ids[j]
    ensures |SetOf(ids)| == |ids|
  {
    if ids != [] {
      var n := |ids| - 1;
      SetOfSize(ids[..n]);
      assert ids == ids[..n] + [ids[n]];
      assert SetOf(ids) == SetOf(ids[..n]) + {ids[n]};
    }
  }

  lemma Grows(a: set<string>, x: string)
    ensures |a + {x}| >= |a|
  {
    if x in a {
      assert a + {x} == a;
    }
  }

  /** A client that was touched and is gone stays behind when another one is touched. */
  lemma GoneStaysBehind(ids: seq<string>, capacity: int, touched: seq<string>, last: string, id: string)
    requires Ordered(ids, capacity, touched) && id in touched && id !in ids && id != last
    ensures |Since(touched + [last], id)| >= capacity
  {
    SinceSnoc(touched, last, id);
    Grows(Since(touched, id), last);
  }

  ghost predicate Distinct(ids: seq<string>) { forall i, j :: 0 <= i < j < |ids| ==> ids[i] != ids[j] }

  /** The client at position `i` has exactly the clients ahead of it since its touch. */
  ghost predicate InPlace(ids: seq<string>, touched: seq<string>, i: nat)
    requires i < |ids|
  {
    ids[i] in touched && Since(touched, ids[i]) == SetOf(ids[..i])
  }

  lemma FrontDistinct(ids: seq<string>, j: nat)
    requires Distinct(ids) && j < |ids|
    ensures Distinct(Front(ids, j))
  {
  }

  lemma KnownFirst(ids: seq<string>, touched: seq<string>, j: nat)
    requires j < |ids|
    ensures InPlace(Front(ids, j), touched + [ids[j]], 0)
  {
    var last, moved := ids[j], Front(ids, j);
    SinceSnoc(touched, last, moved[0]);
    assert moved[..0] == [] && moved[0] == last;
    hide Since, Front;
  }

  lemma KnownMoved(ids: seq<string>, touched: seq<string>, j: nat, k: nat)
    requires Distinct(ids) && 0 < k <= j < |ids| && InPlace(ids, touched, k - 1)
    ensures InPlace(Front(ids, j), touched + [ids[j]], k)
  {
    var last, moved := ids[j], Front(ids, j);
    assert moved[k] == ids[k - 1] && moved[..k] == [last] + ids[..k - 1] && last != ids[k - 1];
    SinceSnoc(touched, last, moved[k]);
    hide Since, Front, Distinct;
    assert moved[..k][0] == last && moved[..k][1..] == ids[..k - 1];
  }

  lemma KnownStill(ids: seq<string>, touched: seq<string>, j: nat, k: nat)
    requires Distinct(ids) && j < k < |ids| && InPlace(ids, touched, k)
    ensures InPlace(Front(ids, j), touched + [ids[j]], k)
  {
    var last, moved := ids[j], Front(ids, j);
    assert moved[k] == ids[k] && ids[..k][j] == last && last != ids[k];
    SinceSnoc(touched, last, moved[k]);
    KnownPrefix(ids, j, k);
    hide Since, Front, Distinct;
  }

  lemma TouchKnownAt(ids: seq<string>, capacity: int, touched: seq<string>, j: nat, k: nat)
    requires Ordered(ids, capacity, touched) && j < |ids| && k < |ids|
    ensures InPlace(Front(ids, j), touched + [ids[j]], k)
  {
    if k == 0 {
      KnownFirst(ids, touched, j);
    } else if k <= j {
      assert InPlace(ids, touched, k - 1);
      KnownMoved(ids, touched, j, k);
    } else {
      assert InPlace(ids, touched, k);
      KnownStill(ids, touched, j, k);
    }
    hide *;
  }

  lemma TouchKnown(ids: seq<string>, capacity: int, touched: seq<string>, j: nat)
    requires Ordered(ids, capacity, touched) && j < |ids|
    ensures Ordered(Front(ids, j), capacity, touched + [ids[j]])
  {
    var after, moved := touched + [ids[j]], Front(ids, j);
    FrontDistinct(ids, j);
    forall k | 0 <= k < |moved| ensures InPlace(moved, after, k) {
      TouchKnownAt(ids, capacity, touched, j, k);
    }
    forall id | id in after && id !in moved ensures |Since(after, id)| >= capacity {
      assert moved[0] == ids[j];
      StillThere(ids, j);
      GoneStaysBehind(ids, capacity, touched, ids[j], id);
    }
    hide Since, SetOf, Front;
  }

  lemma StillThere(ids: seq<string>, j: nat)
    requires j < |ids|
    ensures forall id :: id in ids ==> id in Front(ids, j)
  {
    forall id | id in ids ensures id in Front(ids, j) {
      var k :| 0 <= k < |ids| && ids[k] == id;
      assert Front(ids, j)[if k == j then 0 else if k < j then k + 1 else k] == id;
    }
  }

  lemma KnownPrefix(ids: seq<string>, j: nat, k: nat)
    requires j < k <= |ids|
    ensures SetOf(Front(ids, j)[..k]) == SetOf(ids[..k])
  {
    var moved := Front(ids, j);
    assert moved[..k] == Front(ids[..k], j);
    StillThere(ids[..k], j);
    forall id | id in moved[..k] ensures id in ids[..k] {
      var m :| 0 <= m < k && moved[m] == id;
      assert ids[..k][if m == 0 then j else if m <= j then m - 1 else m] == id;
    }
  }

  lemma TouchNewAt(ids: seq<string>, capacity: int, touched: seq<string>, id: string, k: nat)
    requires Ordered(ids, capacity, touched) && id !in ids && k <= |ids|
    ensures InPlace([id] + ids, touched + [id], k)
  {
    var more := [id] + ids;
    SinceSnoc(touched, id, more[k]);
    if k == 0 {
      assert more[..0] == [];
    } else {
      assert InPlace(ids, touched, k - 1) && more[..k] == [id] + ids[..k - 1];
    }
  }

  lemma TouchNew(ids: seq<string>, capacity: int, touched: seq<string>, id: string)
    requires Ordered(ids, capacity, touched) && id !in ids
    ensures Ordered(if |ids| + 1 > capacity then ([id] + ids)[..|ids|] else [id] + ids, capacity, touched + [id])
  {
    var after, more := touched + [id], [id] + ids;
    assert Distinct(more);
    forall k | 0 <= k < |more| ensures InPlace(more, after, k) {
      TouchNewAt(ids, capacity, touched, id, k);
    }
    forall other | other in after && other !in more ensures |Since(after, other)| >= capacity {
      assert more[0] == id && forall k :: 0 <= k < |ids| ==> more[k + 1] == ids[k];
      GoneStaysBehind(ids, capacity, touched, id, other);
    }
    hide Since, SetOf;
    if |ids| + 1 > capacity {
      Evict(more, capacity, after);
    }
  }

  /** Dropping the last of too many clients: it has `capacity` clients ahead of it. */
  lemma Evict(more: seq<string>, capacity: int, touched: seq<string>)
    requires more != [] && |more| > capacity && (|more| == 1 || |more| == capacity + 1) && Distinct(more)
    requires forall k :: 0 <= k < |more| ==> InPlace(more, touched, k)
    requires forall id :: id in touched && id !in more ==> |Since(touched, id)| >= capacity
    ensures Ordered(more[..|more| - 1], capacity, touched)
  {
    var n := |more| - 1;
    var kept := more[..n];
    forall k | 0 <= k < n ensures InPlace(kept, touched, k) {
      assert kept[..k] == more[..k] && InPlace(more, touched, k);
    }
    SetOfSize(kept);
    assert InPlace(more, touched, n);
    assert more == kept + [more[n]];
    hide Since, SetOf;
  }

  /** The values found are the values put last. */
  ghost predicate Latest(entries: seq<Entry>, ops: seq<Op>) {
    forall i :: 0 <= i < |entries| ==> LastPut(ops, entries[i].clientID) == Some(entries[i].nonce)
  }

  lemma IdsFront(entries: seq<Entry>, i: nat)
    requires i < |entries|
    ensures Ids(Front(entries, i)) == Front(Ids(entries), i)
  {
    forall k | 0 <= k < |entries| ensures Ids(Front(entries, i))[k] == Front(Ids(entries), i)[k] {
      var m := if k == 0 then i else if k <= i then k - 1 else k;
      assert Front(entries, i)[k] == entries[m] && Front(Ids(entries), i)[k] == Ids(entries)[m];
    }
  }

  lemma IdsPushed(entries: seq<Entry>, capacity: int, entry: Entry)
    ensures Ids(if |entries| + 1 > capacity then ([entry] + entries)[..|entries|] else [entry] + entries)
            == if |entries| + 1 > capacity then ([entry.clientID] + Ids(entries))[..|entries|]
               else [entry.clientID] + Ids(entries)
  {
    assert Ids([entry] + entries) == [entry.clientID] + Ids(entries);
    assert Ids(([entry] + entries)[..|entries|]) == Ids([entry] + entries)[..|entries|];
  }

  lemma IdsAfter(entries: seq<Entry>, capacity: int, op: Op)
    ensures var i, ids, id := Position(entries, op.id), Ids(entries), op.id;
            Ids(AfterOp(entries, capacity, op)) == if i < |entries| then Front(ids, i)
                          else if op.Get? then ids
                          else if |ids| + 1 > capacity then ([id] + ids)[..|ids|] else [id] + ids
  {
    var i := Position(entries, op.id);
    hide Position;
    if i < |entries| {
      IdsFront(entries, i);
      hide Front;
      if op.Put? {
        assert Ids(Front(entries, i)[0 := Entry(op.id, op.nonce)]) == Ids(Front(entries, i))[0 := op.id];
        assert Front(Ids(entries), i)[0] == Ids(entries)[i] by { FrontFirst(Ids(entries), i); }
      }
    } else if op.Put? {
      IdsPushed(entries, capacity, Entry(op.id, op.nonce));
    }
  }

  lemma FrontFirst(ids: seq<string>, i: nat)
    requires i < |ids|
    ensures Front(ids, i)[0] == ids[i]
  {
  }

  lemma {:induction false} RunOrdered(capacity: int, ops: seq<Op>)
    ensures Ordered(Ids(Run(capacity, ops)), capacity, Touched(capacity, ops))
    decreases |ops|
  {
    if ops != [] {
      var n := |ops| - 1;
      RunOrdered(capacity, ops[..n]);
      var before, touched, id := Run(capacity, ops[..n]), Touched(capacity, ops[..n]), ops[n].id;
      var i := Position(before, id);
      IdsAfter(before, capacity, ops[n]);
      hide Ordered, Position, AfterOp, Front, Ids;
      if i < |before| {
        TouchKnown(Ids(before), capacity, touched, i);
      } else if ops[n].Put? {
        TouchNew(Ids(before), capacity, touched, id);
      }
    }
  }

  lemma {:induction false} RunLatest(capacity: int, ops: seq<Op>)
    ensures Latest(Run(capacity, ops), ops)
    decreases |ops|
  {
    if ops != [] {
      var n := |ops| - 1;
      RunLatest(capacity, ops[..n]);
      RunOrdered(capacity, ops[..n]);
      var before := Run(capacity, ops[..n]);
      assert Distinct(Ids(before));
      hide Ordered, Touched, AfterOp;
      LatestStep(before, capacity, ops);
    }
  }

  lemma FrontAt<T>(list: seq<T>, i: nat, k: nat)
    requires i < |list| && k < |list|
    ensures Front(list, i)[k] == list[if k == 0 then i else if k <= i then k - 1 else k]
  {
  }

  /** An entry after an operation is the one just put, or an old one of another client or
      of a hit. */
  lemma EntryAfter(before: seq<Entry>, capacity: int, op: Op, k: nat)
    requires Distinct(Ids(before)) && k < |AfterOp(before, capacity, op)|
    ensures var e := AfterOp(before, capacity, op)[k];
            (op.Put? && e == Entry(op.id, op.nonce)) || (e in before && (op.Put? ==> e.clientID != op.id))
  {
    var i := Position(before, op.id);
    if i < |before| {
      FrontAt(before, i, k);
      var m := if k == 0 then i else if k <= i then k - 1 else k;
      assert m != i ==> Ids(before)[m] != Ids(before)[i];
      hide Distinct, Ids, Position, Front;
      assert AfterOp(before, capacity, op)[k] == if op.Put? && k == 0 then Entry(op.id, op.nonce) else before[m];
      hide AfterOp;
    } else if op.Put? {
      hide Distinct, Ids, Front;
      if k > 0 {
        assert AfterOp(before, capacity, op)[k] == before[k - 1];
      }
    }
  }

  lemma LatestStep(before: seq<Entry>, capacity: int, ops: seq<Op>)
    requires ops != [] && Latest(before, ops[..|ops| - 1]) && Distinct(Ids(before))
    ensures Latest(AfterOp(before, capacity, ops[|ops| - 1]), ops)
  {
    var op := ops[|ops| - 1];
    var after := AfterOp(before, capacity, op);
    hide AfterOp, Distinct;
    forall k | 0 <= k < |after| ensures LastPut(ops, after[k].clientID) == Some(after[k].nonce) {
      EntryAfter(before, capacity, op, k);
    }
  }

  /** The law: over any run of puts and gets, a client is present exactly when it was put and
      fewer than `capacity` distinct other clients were put or hit since it last was; and
      what is found is what was put last. */
  lemma TraceLaw(capacity: int, ops: seq<Op>, id: string)
    ensures var found := Lookup(Run(capacity, ops), id);
            && (found.Some? <==> id in Touched(capacity, ops) && |Since(Touched(capacity, ops), id)| < capacity)
            && (found.Some? ==> found == LastPut(ops, id))
            && |Run(capacity, ops)| <= (if capacity > 0 then capacity else 0)
  {
    RunOrdered(capacity, ops);
    RunLatest(capacity, ops);
    var entries := Run(capacity, ops);
    var i := Position(entries, id);
    var ids := Ids(entries);
    if i < |entries| {
      assert ids[i] == id && InPlace(ids, Touched(capacity, ops), i);
      SetOfSize(ids[..i]);
    } else {
      assert id !in ids;
    }
    hide Run, Touched;
  }

  /** Being touched at all is having been put. */
  lemma {:induction false} TouchedIsPut(capacity: int, ops: seq<Op>, id: string)
    ensures id in Touched(capacity, ops) <==> LastPut(ops, id).Some?
    decreases |ops|
  {
    if ops != [] {
      var n := |ops| - 1;
      TouchedIsPut(capacity, ops[..n], id);
      TraceLaw(capacity, ops[..n], ops[n].id);
      hide Run, Lookup;
    }
  }
}
