/** The store of discovered devices and the choice of a channel to reach one. */
module Discovery {
  import opened Wrappers
  import opened UniqueNames

  const MaxDiscoveredDevices := 512
  const DiscoveryTTL := 300
  const DefaultPort := 53317

  datatype Announcement = Announcement(fingerprint: string, alias: string, protocol: string, port: int)

  datatype Channel = Channel(host: string, protocol: string, port: int, lastSeen: int)

  datatype Device = Device(anno: Announcement, lastSeen: int, channels: map<string, Channel>)

  // ---------- Which channel is better ----------

  /** Byte order of host names. */
  predicate Less(a: string, b: string) {
    b != [] && (a == [] || a[0] < b[0] || (a[0] == b[0] && Less(a[1..], b[1..])))
  }

  lemma {:induction false} LessTotal(a: string, b: string)
    ensures Less(a, b) || a == b || Less(b, a)
    ensures !(Less(a, b) && Less(b, a)) && (Less(a, b) ==> a != b)
  {
    if a != [] && b != [] {
      LessTotal(a[1..], b[1..]);
      assert a == [a[0]] + a[1..] && b == [b[0]] + b[1..];
    }
  }

  lemma {:induction false} LessTransitive(a: string, b: string, c: string)
    requires Less(a, b) && Less(b, c)
    ensures Less(a, c)
  {
    if a != [] && a[0] == b[0] == c[0] {
      LessTransitive(a[1..], b[1..], c[1..]);
    }
  }

  /** The smaller name is the other's beginning, or smaller at the first place they differ. */
  lemma {:induction false} LessIsByteOrder(a: string, b: string)
    ensures Less(a, b) <==> exists n: nat :: SameUpTo(a, b, n) && n < |b| && (n == |a| || a[n] < b[n])
  {
    if a != [] && b != [] && a[0] == b[0] {
      LessIsByteOrder(a[1..], b[1..]);
      if Less(a, b) {
        var n: nat :| SameUpTo(a[1..], b[1..], n) && n < |b[1..]| && (n == |a[1..]| || a[1..][n] < b[1..][n]);
        assert a[..n + 1] == [a[0]] + a[1..][..n] && b[..n + 1] == [b[0]] + b[1..][..n];
        assert SameUpTo(a, b, n + 1);
      }
      forall n: nat | SameUpTo(a, b, n) && n < |b| && (n == |a| || a[n] < b[n]) ensures Less(a, b) {
        assert n > 0;
        assert a[1..][..n - 1] == a[..n][1..] && b[1..][..n - 1] == b[..n][1..];
        assert SameUpTo(a[1..], b[1..], n - 1);
      }
    } else {
      assert SameUpTo(a, b, 0);
      forall n: nat | SameUpTo(a, b, n) && n < |b| && (n == |a| || a[n] < b[n]) ensures Less(a, b) {
        if n > 0 {
          assert a[..n][0] == b[..n][0];
        }
      }
    }
  }

  predicate SameUpTo(a: string, b: string, n: nat) { n <= |a| && n <= |b| && a[..n] == b[..n] }

  /** An IPv6 host first, then the later confirmation, then the smaller name. */
  predicate Better(v6: string -> bool, a: Channel, b: Channel) {
    if v6(a.host) != v6(b.host) then v6(a.host)
    else a.lastSeen > b.lastSeen || (a.lastSeen == b.lastSeen && Less(a.host, b.host))
  }

  lemma BetterOrders(v6: string -> bool, a: Channel, b: Channel, c: Channel)
    ensures a.host != b.host ==> Better(v6, a, b) || Better(v6, b, a)
    ensures !(Better(v6, a, b) && Better(v6, b, a))
    ensures Better(v6, a, b) && Better(v6, b, c) ==> Better(v6, a, c)
  {
    LessTotal(a.host, b.host);
    if Less(a.host, b.host) && Less(b.host, c.host) {
      LessTransitive(a.host, b.host, c.host);
    }
  }

  predicate Eligible(c: Channel, since: int) { c.lastSeen >= since }

  ghost predicate OnePerHost(channels: map<string, Channel>) {
    forall k, m :: k in channels && m in channels && channels[k].host == channels[m].host ==> k == m
  }

  /** `best` is eligible and better than every other eligible channel. */
  ghost predicate IsBest(v6: string -> bool, channels: map<string, Channel>, since: int, best: Channel) {
    && (exists k :: k in channels && channels[k] == best) && Eligible(best, since)
    && (forall k :: k in channels && Eligible(channels[k], since) ==>
          channels[k] == best || Better(v6, best, channels[k]))
  }

  /** One channel that was confirmed recently enough: over IPv6 if any such channel is, then the
      one confirmed last, then the one with the smallest host name. */
  ghost predicate FirstChoice(v6: string -> bool, channels: map<string, Channel>, since: int, best: Channel) {
    && best in channels.Values && best.lastSeen >= since
    && forall k :: k in channels && channels[k].lastSeen >= since && channels[k] != best ==>
         var other := channels[k];
         && (v6(other.host) ==> v6(best.host))
         && (v6(other.host) == v6(best.host) ==> other.lastSeen <= best.lastSeen)
         && (v6(other.host) == v6(best.host) && other.lastSeen == best.lastSeen ==> Less(best.host, other.host))
  }

  lemma BestIsFirstChoice(v6: string -> bool, channels: map<string, Channel>, since: int, best: Channel)
    ensures IsBest(v6, channels, since, best) <==> FirstChoice(v6, channels, since, best)
  {
    hide Less;
  }

  lemma BestUnique(v6: string -> bool, channels: map<string, Channel>, since: int, a: Channel, b: Channel)
    requires IsBest(v6, channels, since, a) && IsBest(v6, channels, since, b)
    ensures a == b
  {
    BetterOrders(v6, a, b, a);
  }

  /** The answer of a walk over `channels`: their best, or none if none is recent enough. */
  ghost predicate BestOf(v6: string -> bool, channels: map<string, Channel>, since: int, best: Option<Channel>) {
    if best.Some? then IsBest(v6, channels, since, best.value)
    else forall k :: k in channels ==> !Eligible(channels[k], since)
  }

  /** One round of the loop in bestDiscoveryChannel. */
  method Consider(v6: string -> bool, best: Option<Channel>, channel: Channel, since: int)
    returns (next: Option<Channel>)
    ensures next == if !Eligible(channel, since) then best
                    else if best.None? || Better(v6, channel, best.value) then Some(channel) else best
  {
    if channel.lastSeen < since {
      return best;
    }
    if best.None? {
      return Some(channel);
    }
    var isV6, bestV6 := v6(channel.host), v6(best.value.host);
    if isV6 != bestV6 {
      return if isV6 then Some(channel) else best;
    }
    if channel.lastSeen > best.value.lastSeen
       || (channel.lastSeen == best.value.lastSeen && Less(channel.host, best.value.host)) {
      return Some(channel);
    }
    return best;
  }

  lemma ConsiderKeeps(v6: string -> bool, seen: map<string, Channel>, since: int, best: Option<Channel>, key: string,
                      channel: Channel)
    requires BestOf(v6, seen, since, best) && key !in seen && OnePerHost(seen[key := channel])
    ensures BestOf(v6, seen[key := channel], since,
                   if !Eligible(channel, since) then best
                   else if best.None? || Better(v6, channel, best.value) then Some(channel) else best)
  {
    var more := seen[key := channel];
    assert more[key] == channel;
    if !Eligible(channel, since) {
      if best.Some? {
        var k :| k in seen && seen[k] == best.value;
        assert more[k] == best.value;
      }
    } else if best.Some? {
      Challenge(v6, seen, since, best.value, key, channel);
    }
  }

  /** bestDiscoveryChannel: whatever order the map is walked in, the answer is the one best
      channel, and there is none exactly when no channel is recent enough. */
  method BestDiscoveryChannel(v6: string -> bool, channels: map<string, Channel>, since: int)
    returns (best: Option<Channel>)
    requires OnePerHost(channels)
    ensures best.Some? ==> IsBest(v6, channels, since, best.value) && FirstChoice(v6, channels, since, best.value)
    ensures best.None? <==> forall k :: k in channels ==> channels[k].lastSeen < since
  {
    best := None;
    var rest := channels.Keys;
    ghost var seen: map<string, Channel> := map[];
    assert BestOf(v6, seen, since, best);
    hide BestOf;
    while rest != {}
      invariant rest <= channels.Keys && seen.Keys == channels.Keys - rest
      invariant forall k :: k in seen ==> seen[k] == channels[k]
      invariant BestOf(v6, seen, since, best)
      decreases |rest|
    {
      var key :| key in rest;
      rest := rest - {key};
      ConsiderKeeps(v6, seen, since, best, key, channels[key]);
      best := Consider(v6, best, channels[key], since);
      seen := seen[key := channels[key]];
    }
    assert seen == channels;
    BestOfMeans(v6, channels, since, best);
    if best.Some? {
      BestIsFirstChoice(v6, channels, since, best.value);
    }
  }

  lemma BestOfMeans(v6: string -> bool, channels: map<string, Channel>, since: int, best: Option<Channel>)
    requires BestOf(v6, channels, since, best)
    ensures best.Some? ==> IsBest(v6, channels, since, best.value)
    ensures best.None? ==> forall k :: k in channels ==> !Eligible(channels[k], since)
  {
  }

  /** Two walks over the same channels, in whatever orders, answer the same. */
  lemma OrderIrrelevant(v6: string -> bool, channels: map<string, Channel>, since: int, a: Option<Channel>,
                        b: Option<Channel>)
    requires BestOf(v6, channels, since, a) && BestOf(v6, channels, since, b)
    ensures a == b
  {
    if a.Some? && b.Some? {
      BestUnique(v6, channels, since, a.value, b.value);
    }
  }

  /** The better of the best so far and one more channel is the best of both. */
  lemma Challenge(v6: string -> bool, seen: map<string, Channel>, since: int, best: Channel, key: string,
                  channel: Channel)
    requires IsBest(v6, seen, since, best) && key !in seen && Eligible(channel, since)
    requires OnePerHost(seen[key := channel])
    ensures IsBest(v6, seen[key := channel], since, if Better(v6, channel, best) then channel else best)
  {
    var more := seen[key := channel];
    var k :| k in seen && seen[k] == best;
    assert more[k] == best && more[key] == channel;
    BetterOrders(v6, channel, best, best);
    forall m | m in more && Eligible(more[m], since)
      ensures var winner := if Better(v6, channel, best) then channel else best;
              more[m] == winner || Better(v6, winner, more[m])
    {
      if m != key {
        BetterOrders(v6, channel, best, seen[m]);
      }
    }
  }

  // ---------- The store ----------

  predicate StaleChannel(c: Channel, now: int) { now - c.lastSeen > DiscoveryTTL }

  /** One channel per host, and the device was last seen when its newest channel was. */
  ghost predicate GoodDevice(d: Device, now: int) {
    && OnePerHost(d.channels) && d.lastSeen <= now
    && (exists k :: k in d.channels && d.channels[k].lastSeen == d.lastSeen)
    && (forall k :: k in d.channels ==> d.channels[k].lastSeen <= d.lastSeen)
  }

  ghost predicate GoodStore(store: map<string, Device>, now: int) {
    && |store| <= MaxDiscoveredDevices && "" !in store
    && forall f :: f in store ==> GoodDevice(store[f], now)
  }

  /** discoveryChannelKey */
  function ChannelKey(host: string, protocol: string, port: int): string {
    host + "|" + protocol + "|" + (if port < 0 then "-" + Itoa(-port) else Itoa(port))
  }

  function Completed(anno: Announcement): (full: Announcement)
    ensures full.fingerprint == anno.fingerprint && full.alias == anno.alias && full.port != 0 && full.protocol != ""
    ensures anno.port != 0 && anno.protocol != "" ==> full == anno
  {
    anno.(port := if anno.port == 0 then DefaultPort else anno.port,
          protocol := if anno.protocol == "" then "http" else anno.protocol)
  }

  function StoreKey(ip: string, anno: Announcement): (key: string)
    ensures key != ""
  {
    if anno.fingerprint == "" then "host:" + ip else anno.fingerprint
  }

  /** The channels of a device once host `ip` has been confirmed. */
  function Confirmed(channels: map<string, Channel>, newest: Channel): map<string, Channel> {
    var others := map k | k in channels && channels[k].host != newest.host :: channels[k];
    others[ChannelKey(newest.host, newest.protocol, newest.port) := newest]
  }

  function ConfirmedDevice(store: map<string, Device>, key: string, ip: string, anno: Announcement, now: int): Device {
    Device(anno, now, Confirmed(if key in store then store[key].channels else map[],
                                Channel(ip, anno.protocol, anno.port, now)))
  }

  /** A device nobody was seen before. */
  ghost predicate Oldest(store: map<string, Device>, victim: string) {
    victim in store && forall f :: f in store ==> store[victim].lastSeen <= store[f].lastSeen
  }

  /** The store has room for `key`, if need be without one of its oldest devices. */
  ghost predicate MadeRoom(store: map<string, Device>, key: string, base: map<string, Device>) {
    if key in store || |store| < MaxDiscoveredDevices then base == store
    else exists victim :: Oldest(store, victim) && base == store - {victim}
  }

  /** `after` is the store with the device confirmed at `ip`. */
  ghost predicate Puts(store: map<string, Device>, key: string, ip: string, anno: Announcement, now: int,
                       after: map<string, Device>) {
    exists base :: MadeRoom(store, key, base) && after == base[key := ConfirmedDevice(base, key, ip, anno, now)]
  }

  /** What cleanup leaves of a device. */
  function FreshChannels(d: Device, now: int): map<string, Channel> {
    map k | k in d.channels && !StaleChannel(d.channels[k], now) :: d.channels[k]
  }

  predicate Dropped(d: Device, now: int) { FreshChannels(d, now) == map[] || now - d.lastSeen > DiscoveryTTL }

  function Cleaned(store: map<string, Device>, now: int): map<string, Device> {
    map f | f in store && !Dropped(store[f], now) :: store[f].(channels := FreshChannels(store[f], now))
  }

  /** Cleanup has dealt with every device but those in `rest`. */
  ghost predicate CleanedBut(before: map<string, Device>, store: map<string, Device>, rest: set<string>, now: int) {
    && rest <= store.Keys <= before.Keys
    && (forall f :: f in before && f !in rest ==> (f in store <==> !Dropped(before[f], now)))
    && (forall f :: f in store ==>
          store[f] == if f in rest then before[f] else before[f].(channels := FreshChannels(before[f], now)))
  }

  /** The device as it is reached over `best`. */
  function Merged(anno: Announcement, best: Channel): (reached: Announcement)
    ensures reached.protocol == best.protocol && reached.port == best.port
    ensures reached.fingerprint == anno.fingerprint && reached.alias == anno.alias
  {
    anno.(protocol := best.protocol, port := best.port)
  }

  /** Device `f` is reached best through channel `c`. */
  ghost predicate Reaches(v6: string -> bool, store: map<string, Device>, since: int, f: string, c: Channel) {
    f in store && IsBest(v6, store[f].channels, since, c)
  }

  /** Every entry is a device at the host of its best channel, and every such host has one. */
  ghost predicate Snapshot(v6: string -> bool, store: map<string, Device>, since: int, result: map<string,
                           Announcement>) {
    && (forall h :: h in result ==>
          exists f, c :: Reaches(v6, store, since, f, c) && c.host == h && result[h] == Merged(store[f].anno, c))
    && (forall f, c :: Reaches(v6, store, since, f, c) ==> c.host in result)
  }

  class Discoverer {
    const v6: string -> bool
    const self: Option<string>                      // our own fingerprint, once announced
    const sameFold: (string, string) -> bool        // equality up to letter case
    var discovered: map<string, Device>

    predicate IsSelf(anno: Announcement) {
      self.Some? && anno.fingerprint != "" && sameFold(anno.fingerprint, self.value)
    }

    constructor (v6: string -> bool, self: Option<string>, sameFold: (string, string) -> bool)
      ensures discovered == map[] && this.v6 == v6 && this.self == self && this.sameFold == sameFold
    {
      this.v6, this.self, this.sameFold, discovered := v6, self, sameFold, map[];
    }

    /** A device seen least recently, in whatever order the store is walked. */
    method FindOldest() returns (victim: string)
      requires discovered != map[] && "" !in discovered
      ensures Oldest(discovered, victim)
    {
      victim := "";
      var rest := discovered.Keys;
      while rest != {}
        invariant rest <= discovered.Keys && (victim == "" ==> rest == discovered.Keys)
        invariant victim != "" ==> victim in discovered
        invariant victim != "" ==> forall f :: f in discovered && f !in rest ==>
                    discovered[victim].lastSeen <= discovered[f].lastSeen
        decreases |rest|
      {
        var candidate :| candidate in rest;
        rest := rest - {candidate};
        if victim == "" || discovered[candidate].lastSeen < discovered[victim].lastSeen {
          victim := candidate;
        }
      }
    }

    method PutDiscovered(ip: string, announced: Announcement, now: int)
      requires "" !in discovered
      modifies this
      ensures IsSelf(announced) ==> discovered == old(discovered)
      ensures !IsSelf(announced) ==>
                Puts(old(discovered), StoreKey(ip, announced), ip, Completed(announced), now, discovered)
    {
      if IsSelf(announced) {
        return;
      }
      var anno := announced;
      if anno.port == 0 {
        anno := anno.(port := DefaultPort);
      }
      if anno.protocol == "" {
        anno := anno.(protocol := "http");
      }
      var fingerprint := anno.fingerprint;
      if fingerprint == "" {
        fingerprint := "host:" + ip;
      }
      if fingerprint !in discovered && |discovered| >= MaxDiscoveredDevices {
        var victim := FindOldest();
        discovered := discovered - {victim};
      }
      ghost var base := discovered;
      assert MadeRoom(old(discovered), fingerprint, base);
      var channels := if fingerprint in discovered then discovered[fingerprint].channels else map[];
      channels := RemoveHost(channels, ip);
      channels := channels[ChannelKey(ip, anno.protocol, anno.port) := Channel(ip, anno.protocol, anno.port, now)];
      discovered := discovered[fingerprint := Device(anno, now, channels)];
      assert anno == Completed(announced) && fingerprint == StoreKey(ip, announced);
      assert discovered == base[fingerprint := ConfirmedDevice(base, fingerprint, ip, anno, now)];
      hide MadeRoom;
    }

    /** Deletes the channels of one host. */
    method RemoveHost(channels: map<string, Channel>, ip: string) returns (others: map<string, Channel>)
      ensures others == map k | k in channels && channels[k].host != ip :: channels[k]
    {
      others := channels;
      var rest := channels.Keys;
      while rest != {}
        invariant rest <= others.Keys <= channels.Keys
        invariant forall k :: k in others ==> others[k] == channels[k]
        invariant forall k :: k in channels && k !in rest ==> (k in others <==> channels[k].host != ip)
        decreases |rest|
      {
        var key :| key in rest;
        rest := rest - {key};
        if others[key].host == ip {
          others := others - {key};
        }
      }
    }

    /** cleanupStaleDiscoveredAt */
    method CleanupStale(now: int)
      modifies this
      ensures discovered == Cleaned(old(discovered), now)
    {
      ghost var before := discovered;
      var rest := discovered.Keys;
      while rest != {}
        invariant CleanedBut(before, discovered, rest, now)
        decreases |rest|
      {
        var fingerprint :| fingerprint in rest;
        rest := rest - {fingerprint};
        var entry := discovered[fingerprint];
        var channels := KeepFresh(entry, now);
        if channels == map[] || now - entry.lastSeen > DiscoveryTTL {
          discovered := discovered - {fingerprint};
        } else {
          discovered := discovered[fingerprint := entry.(channels := channels)];
        }
        hide FreshChannels;
      }
    }

    /** The inner loop of cleanup. */
    method KeepFresh(d: Device, now: int) returns (channels: map<string, Channel>)
      ensures channels == FreshChannels(d, now)
    {
      channels := d.channels;
      var rest := channels.Keys;
      while rest != {}
        invariant rest <= channels.Keys <= d.channels.Keys
        invariant forall k :: k in channels ==> channels[k] == d.channels[k]
        invariant forall k :: k in d.channels && k !in rest ==> (k in channels <==> !StaleChannel(d.channels[k], now))
        decreases |rest|
      {
        var key :| key in rest;
        rest := rest - {key};
        if now - channels[key].lastSeen > DiscoveryTTL {
          channels := channels - {key};
        }
      }
    }

    /** DiscoveredSince: the result of walking the store in some order. */
    method DiscoveredSince(since: int) returns (result: map<string, Announcement>)
      requires forall f :: f in discovered ==> OnePerHost(discovered[f].channels)
      ensures exists order :: IsOrder(order, discovered) && result == Walk(v6, discovered, since, order)
      ensures Snapshot(v6, discovered, since, result)
    {
      result := map[];
      var rest := discovered.Keys;
      ghost var order: seq<string> := [];
      assert result == Walk(v6, discovered, since, order);
      hide Snapshot, Walk, BestIn;
      while rest != {}
        invariant rest <= discovered.Keys && (forall f :: f in order <==> f in discovered && f !in rest)
        invariant forall i, j :: 0 <= i < j < |order| ==> order[i] != order[j]
        invariant result == Walk(v6, discovered, since, order)
        decreases |rest|
      {
        var f :| f in rest;
        rest := rest - {f};
        var best := BestDiscoveryChannel(v6, discovered[f].channels, since);
        WalkSnoc(v6, discovered, since, order, f, best);
        if best.Some? {
          result := result[best.value.host := Merged(discovered[f].anno, best.value)];
        }
        order := order + [f];
      }
      assert IsOrder(order, discovered);
      WholeWalk(v6, discovered, since, order);
    }
  }

  // ---------- Walks over the store ----------

  /** The best channel of a device, if it has one. */
  ghost function BestIn(v6: string -> bool, channels: map<string, Channel>, since: int): Option<Channel> {
    if c :| IsBest(v6, channels, since, c) then Some(c) else None
  }

  ghost predicate IsOrder(order: seq<string>, store: map<string, Device>) {
    && (forall f :: f in order <==> f in store)
    && (forall i, j :: 0 <= i < j < |order| ==> order[i] != order[j])
  }

  /** What the devices of `order`, one after the other, leave in the result. */
  ghost function Walk(v6: string -> bool, store: map<string, Device>, since: int,
                      order: seq<string>): map<string, Announcement>
    requires forall f :: f in order ==> f in store
  {
    if order == [] then map[]
    else
      var f := order[|order| - 1];
      var before := Walk(v6, store, since, order[..|order| - 1]);
      match BestIn(v6, store[f].channels, since)
      case None => before
      case Some(best) => before[best.host := Merged(store[f].anno, best)]
  }

  lemma WalkSnoc(v6: string -> bool, store: map<string, Device>, since: int, order: seq<string>, f: string,
                 best: Option<Channel>)
    requires (forall g :: g in order ==> g in store) && f in store && BestOf(v6, store[f].channels, since, best)
    ensures var before := Walk(v6, store, since, order);
            Walk(v6, store, since, order + [f])
            == if best.Some? then before[best.value.host := Merged(store[f].anno, best.value)] else before
  {
    assert (order + [f])[..|order|] == order;
    BestIsBest(v6, store[f].channels, since, best);
  }

  lemma BestIsBest(v6: string -> bool, channels: map<string, Channel>, since: int, best: Option<Channel>)
    requires BestOf(v6, channels, since, best)
    ensures BestIn(v6, channels, since) == best
  {
    if best.Some? {
      BestUnique(v6, channels, since, best.value, BestIn(v6, channels, since).value);
    }
  }

  lemma SnapshotGrows(v6: string -> bool, store: map<string, Device>, since: int, result: map<string, Announcement>,
                      f: string, d: Device, best: Option<Channel>)
    requires Snapshot(v6, store, since, result) && f !in store
    requires best.Some? ==> IsBest(v6, d.channels, since, best.value)
    requires best.None? ==> forall k :: k in d.channels ==> !Eligible(d.channels[k], since)
    ensures Snapshot(v6, store[f := d], since,
                     if best.Some? then result[best.value.host := Merged(d.anno, best.value)] else result)
  {
    var more := store[f := d];
    var after := if best.Some? then result[best.value.host := Merged(d.anno, best.value)] else result;
    forall h | h in after
      ensures exists g, c :: Reaches(v6, more, since, g, c) && c.host == h && after[h] == Merged(more[g].anno, c)
    {
      if best.Some? && h == best.value.host {
        assert Reaches(v6, more, since, f, best.value);
      } else {
        var g, c :| Reaches(v6, store, since, g, c) && c.host == h && result[h] == Merged(store[g].anno, c);
        assert Reaches(v6, more, since, g, c);
      }
    }
    forall g, c | Reaches(v6, more, since, g, c) ensures c.host in after {
      if g != f {
        assert Reaches(v6, store, since, g, c);
      } else if best.Some? {
        BestUnique(v6, d.channels, since, c, best.value);
      }
    }
  }

  /** Two devices would fill the same entry differently. */
  ghost predicate Conflict(v6: string -> bool, store: map<string, Device>, since: int, f: string, a: Channel,
                           g: string, b: Channel) {
    && Reaches(v6, store, since, f, a) && Reaches(v6, store, since, g, b)
    && a.host == b.host && Merged(store[f].anno, a) != Merged(store[g].anno, b)
  }

  /** Without a conflict the snapshot does not depend on the order of the walk. */
  lemma SnapshotUnique(v6: string -> bool, store: map<string, Device>, since: int, r: map<string, Announcement>,
                       q: map<string, Announcement>)
    requires Snapshot(v6, store, since, r) && Snapshot(v6, store, since, q)
    requires forall f, a, g, b :: !Conflict(v6, store, since, f, a, g, b)
    ensures r == q
  {
    forall h | h in r ensures h in q && r[h] == q[h] {
      var f, a :| Reaches(v6, store, since, f, a) && a.host == h && r[h] == Merged(store[f].anno, a);
      var g, b :| Reaches(v6, store, since, g, b) && b.host == h && q[h] == Merged(store[g].anno, b);
      assert !Conflict(v6, store, since, f, a, g, b);
    }
    forall h | h in q ensures h in r {
      var g, b :| Reaches(v6, store, since, g, b) && b.host == h && q[h] == Merged(store[g].anno, b);
    }
  }

  /** The devices of `order`. */
  ghost function Restricted(store: map<string, Device>, order: seq<string>): map<string, Device> {
    map f | f in store && f in order :: store[f]
  }

  lemma BestInMeans(v6: string -> bool, channels: map<string, Channel>, since: int)
    requires OnePerHost(channels)
    ensures BestOf(v6, channels, since, BestIn(v6, channels, since))
  {
    var best := BestExists(v6, channels, since);
    BestIsBest(v6, channels, since, best);
  }

  /** Every set of channels with one per host has a best one, if any is eligible. */
  lemma BestExists(v6: string -> bool, channels: map<string, Channel>, since: int) returns (best: Option<Channel>)
    requires OnePerHost(channels)
    ensures BestOf(v6, channels, since, best)
    decreases |channels.Keys|
  {
    best := None;
    if channels != map[] {
      var key :| key in channels;
      var fewer := channels - {key};
      assert fewer.Keys == channels.Keys - {key} && fewer[key := channels[key]] == channels;
      best := BestExists(v6, fewer, since);
      ConsiderKeeps(v6, fewer, since, best, key, channels[key]);
      best := if !Eligible(channels[key], since) then best
              else if best.None? || Better(v6, channels[key], best.value) then Some(channels[key]) else best;
    }
  }

  /** A walk over the first `n` devices is a snapshot of them. */
  lemma {:induction false} WalkSnapshot(v6: string -> bool, store: map<string, Device>, since: int,
                                        order: seq<string>, n: nat)
    requires IsOrder(order, store) && n <= |order| && forall f :: f in store ==> OnePerHost(store[f].channels)
    ensures Snapshot(v6, Restricted(store, order[..n]), since, Walk(v6, store, since, order[..n]))
  {
    if n > 0 {
      hide Snapshot, Walk, BestIn, OnePerHost;
      var f := order[n - 1];
      var best := BestIn(v6, store[f].channels, since);
      WalkSnapshot(v6, store, since, order, n - 1);
      BestInMeans(v6, store[f].channels, since);
      RestrictedSnoc(store, order, n);
      WalkSnoc(v6, store, since, order[..n - 1], f, best);
      SnapshotGrows(v6, Restricted(store, order[..n - 1]), since, Walk(v6, store, since, order[..n - 1]), f, store[f],
                    best);
    }
  }

  lemma RestrictedSnoc(store: map<string, Device>, order: seq<string>, n: nat)
    requires IsOrder(order, store) && 0 < n <= |order|
    ensures order[..n] == order[..n - 1] + [order[n - 1]] && order[n - 1] !in Restricted(store, order[..n - 1])
    ensures Restricted(store, order[..n]) == Restricted(store, order[..n - 1])[order[n - 1] := store[order[n - 1]]]
  {
  }

  lemma OrderOf(store: map<string, Device>) returns (order: seq<string>)
    ensures IsOrder(order, store)
    decreases |store.Keys|
  {
    order := [];
    if store != map[] {
      var f :| f in store;
      assert (store - {f}).Keys == store.Keys - {f};
      order := OrderOf(store - {f});
      order := order + [f];
    }
  }

  /** The device walked last fills the entry of its host. */
  lemma LastFills(v6: string -> bool, store: map<string, Device>, since: int, order: seq<string>, f: string, a: Channel)
    requires (forall g :: g in order ==> g in store) && Reaches(v6, store, since, f, a)
    ensures var walk := Walk(v6, store, since, order + [f]); a.host in walk && walk[a.host] == Merged(store[f].anno, a)
  {
    WalkSnoc(v6, store, since, order, f, Some(a));
  }

  /** With a conflict there are two orders with different results. */
  lemma ConflictSplits(v6: string -> bool, store: map<string, Device>, since: int, f: string, a: Channel, g: string,
                       b: Channel)
    returns (r: seq<string>, q: seq<string>)
    requires Conflict(v6, store, since, f, a, g, b)
    ensures IsOrder(r, store) && IsOrder(q, store) && Walk(v6, store, since, r) != Walk(v6, store, since, q)
  {
    if f == g {
      BestUnique(v6, store[f].channels, since, a, b);
    }
    hide Walk, IsBest, Merged;
    var others := OrderOf(store - {f, g});
    r, q := others + [g] + [f], others + [f] + [g];
    TwoMore(store, others, f, g);
    TwoMore(store, others, g, f);
    hide IsOrder;
    LastFills(v6, store, since, others + [g], f, a);
    LastFills(v6, store, since, others + [f], g, b);
  }

  lemma TwoMore(store: map<string, Device>, others: seq<string>, f: string, g: string)
    requires f in store && g in store && f != g && (IsOrder(others, store - {f, g}) || IsOrder(others, store - {g, f}))
    ensures IsOrder(others + [g] + [f], store)
    ensures forall h :: h in others + [g] ==> h in store
  {
    var order := others + [g] + [f];
    assert forall h :: h in others <==> h in store && h != f && h != g;
    assert forall h :: h in order <==> h in others || h == g || h == f;
  }

  /** The result depends on the order of the walk exactly when two devices would fill one
      entry differently. */
  lemma OrderMattersExactly(v6: string -> bool, store: map<string, Device>, since: int)
    requires forall f :: f in store ==> OnePerHost(store[f].channels)
    ensures (exists r, q ::
              IsOrder(r, store) && IsOrder(q, store) && Walk(v6, store, since, r) != Walk(v6, store, since, q))
            <==> exists f, a, g, b :: Conflict(v6, store, since, f, a, g, b)
  {
    hide Walk, Conflict, Snapshot, OnePerHost;
    if f, a, g, b :| Conflict(v6, store, since, f, a, g, b) {
      var r, q := ConflictSplits(v6, store, since, f, a, g, b);
    } else {
      forall r, q | IsOrder(r, store) && IsOrder(q, store)
        ensures Walk(v6, store, since, r) == Walk(v6, store, since, q)
      {
        WholeWalk(v6, store, since, r);
        WholeWalk(v6, store, since, q);
        SnapshotUnique(v6, store, since, Walk(v6, store, since, r), Walk(v6, store, since, q));
      }
    }
  }

  lemma WholeWalk(v6: string -> bool, store: map<string, Device>, since: int, order: seq<string>)
    requires IsOrder(order, store) && forall f :: f in store ==> OnePerHost(store[f].channels)
    ensures Snapshot(v6, store, since, Walk(v6, store, since, order))
  {
    WalkSnapshot(v6, store, since, order, |order|);
    assert order[..|order|] == order && Restricted(store, order) == store;
  }

  /** The store after one device has been confirmed from scratch. */
  function Alone(ip: string, anno: Announcement, now: int): Device {
    Device(anno, now, map[ChannelKey(ip, anno.protocol, anno.port) := Channel(ip, anno.protocol, anno.port, now)])
  }

  /** Two devices that announce themselves from one host, at any time, lead to a conflict. */
  lemma ConflictReachable(v6: string -> bool, ip: string, x: Announcement, y: Announcement, now: int)
    returns (events: seq<Event>, stores: seq<map<string, Device>>)
    requires x.fingerprint != "" && y.fingerprint != "" && x.fingerprint != y.fingerprint
    ensures events == [Put(ip, x, now), Put(ip, y, now)] && IsRun(map[], now, events, stores)
    ensures exists a, b :: Conflict(v6, stores[1], now, x.fingerprint, a, y.fingerprint, b)
  {
    var x1, y1 := Completed(x), Completed(y);
    var first := map[x.fingerprint := Alone(ip, x1, now)];
    var second := first[y.fingerprint := Alone(ip, y1, now)];
    events, stores := [Put(ip, x, now), Put(ip, y, now)], [first, second];
    hide ChannelKey;
    FirstPut(map[], x.fingerprint, ip, x1, now);
    FirstPut(first, y.fingerprint, ip, y1, now);
    hide Puts;
    assert events[1..] == [Put(ip, y, now)] && stores[1..] == [second];
    assert IsRun(second, now, events[1..][1..], stores[1..][1..]);
    assert IsRun(first, now, events[1..], stores[1..]);
    AloneReaches(v6, second, x.fingerprint, ip, x1, now);
    AloneReaches(v6, second, y.fingerprint, ip, y1, now);
    assert Conflict(v6, second, now, x.fingerprint, Channel(ip, x1.protocol, x1.port, now),
                    y.fingerprint, Channel(ip, y1.protocol, y1.port, now));
  }

  lemma FirstPut(store: map<string, Device>, key: string, ip: string, anno: Announcement, now: int)
    requires key !in store && |store| < MaxDiscoveredDevices
    ensures Puts(store, key, ip, anno, now, store[key := Alone(ip, anno, now)])
  {
    hide ChannelKey;
    assert MadeRoom(store, key, store);
    assert ConfirmedDevice(store, key, ip, anno, now) == Alone(ip, anno, now);
  }

  lemma AloneReaches(v6: string -> bool, store: map<string, Device>, key: string, ip: string, anno: Announcement,
                     now: int)
    requires key in store && store[key] == Alone(ip, anno, now)
    ensures Reaches(v6, store, now, key, Channel(ip, anno.protocol, anno.port, now))
  {
    hide ChannelKey;
    assert ChannelKey(ip, anno.protocol, anno.port) in store[key].channels;
  }

  // ---------- What every run keeps ----------

  lemma ConfirmedGood(channels: map<string, Channel>, newest: Channel, anno: Announcement, before: int)
    requires OnePerHost(channels) && forall k :: k in channels ==> channels[k].lastSeen <= before <= newest.lastSeen
    ensures GoodDevice(Device(anno, newest.lastSeen, Confirmed(channels, newest)), newest.lastSeen)
  {
    var key := ChannelKey(newest.host, newest.protocol, newest.port);
    hide ChannelKey;
    assert Confirmed(channels, newest)[key] == newest;
  }

  lemma PutKeepsGood(store: map<string, Device>, key: string, ip: string, anno: Announcement, before: int, now: int,
                     after: map<string, Device>)
    requires GoodStore(store, before) && before <= now && key != "" && Puts(store, key, ip, anno, now, after)
    ensures GoodStore(after, now)
  {
    var base: map<string, Device> :| MadeRoom(store, key,
                                              base) && after == base[key := ConfirmedDevice(base, key, ip, anno, now)];
    RoomCounts(store, key, base, ConfirmedDevice(base, key, ip, anno, now));
    hide MadeRoom, ConfirmedDevice;
    DeviceGood(store, base, key, ip, anno, before, now);
    hide GoodDevice;
    forall f | f in after ensures GoodDevice(after[f], now) {
      if f != key {
        StillGood(store[f], before, now);
      }
    }
  }

  /** A confirmation at `ip` leaves the device with that channel as its only one there, drops no
      other channel of it except one under the same key, and changes no other device; only a new
      device in a full store costs one of the oldest its place. */
  lemma PutExact(store: map<string, Device>, key: string, ip: string, anno: Announcement, now: int,
                 after: map<string, Device>)
    requires Puts(store, key, ip, anno, now, after)
    ensures key in after && after[key].anno == anno && after[key].lastSeen == now
    ensures var had := if key in store then store[key].channels else map[]; var has := after[key].channels;
            var newest, at := Channel(ip, anno.protocol, anno.port, now), ChannelKey(ip, anno.protocol, anno.port);
            && at in has && has[at] == newest
            && (forall k :: k in has && has[k].host == ip ==> has[k] == newest)
            && (forall k :: k != at ==> (k in has <==> k in had && had[k].host != ip))
            && (forall k :: k != at && k in has ==> has[k] == had[k])
    ensures forall f :: f in after && f != key ==> f in store && after[f] == store[f]
    ensures forall f, g :: f in store && f !in after && g in store && g !in after ==> f == g
    ensures forall f :: f in store && f !in after ==>
              key !in store && |store| >= MaxDiscoveredDevices && forall g :: g in store ==>
                store[f].lastSeen <= store[g].lastSeen
  {
    hide ChannelKey;
    var base: map<string, Device> :| MadeRoom(store, key, base)
                                     && after == base[key := ConfirmedDevice(base, key, ip, anno, now)];
    if key !in store && |store| >= MaxDiscoveredDevices {
      var victim :| Oldest(store, victim) && base == store - {victim};
    }
  }

  lemma StillGood(d: Device, before: int, now: int)
    requires GoodDevice(d, before) && before <= now
    ensures GoodDevice(d, now)
  {
  }

  lemma DeviceGood(store: map<string, Device>, base: map<string, Device>, key: string, ip: string, anno: Announcement,
                   before: int, now: int)
    requires GoodStore(store, before) && before <= now && forall f :: f in base ==> f in store && base[f] == store[f]
    ensures GoodDevice(ConfirmedDevice(base, key, ip, anno, now), now)
  {
    var channels := if key in base then base[key].channels else map[];
    assert key in base ==> GoodDevice(store[key], before);
    ConfirmedGood(channels, Channel(ip, anno.protocol, anno.port, now), anno, before);
    hide Confirmed, GoodStore;
  }

  lemma SizeAfter(store: map<string, Device>, key: string, d: Device)
    ensures |store[key := d]| == |store| + if key in store then 0 else 1
  {
    assert store[key := d].Keys == store.Keys + {key};
    assert |store[key := d]| == |store[key := d].Keys| && |store| == |store.Keys|;
    if key in store {
      assert store.Keys + {key} == store.Keys;
    }
  }

  lemma SizeWithout(store: map<string, Device>, key: string)
    requires key in store
    ensures |store - {key}| == |store| - 1
  {
    assert (store - {key}).Keys == store.Keys - {key};
    assert |store - {key}| == |(store - {key}).Keys| && |store| == |store.Keys|;
  }

  lemma RoomCounts(store: map<string, Device>, key: string, base: map<string, Device>, d: Device)
    requires |store| <= MaxDiscoveredDevices && MadeRoom(store, key, base)
    ensures |base[key := d]| <= MaxDiscoveredDevices
    ensures forall f :: f in base ==> f in store && base[f] == store[f]
  {
    SizeAfter(base, key, d);
    if key !in store && |store| >= MaxDiscoveredDevices {
      var victim :| Oldest(store, victim) && base == store - {victim};
      SizeWithout(store, victim);
    }
  }

  /** A good device is dropped exactly when all its channels are stale. */
  lemma DroppedIffAllStale(d: Device, seen: int, now: int)
    requires GoodDevice(d, seen)
    ensures Dropped(d, now) <==> forall k :: k in d.channels ==> StaleChannel(d.channels[k], now)
  {
    if forall k :: k in d.channels ==> StaleChannel(d.channels[k], now) {
      assert FreshChannels(d, now) == map[];
    } else {
      var k :| k in d.channels && !StaleChannel(d.channels[k], now);
      assert k in FreshChannels(d, now);
    }
  }

  lemma CleanupKeepsGood(store: map<string, Device>, before: int, now: int)
    requires GoodStore(store, before) && before <= now
    ensures GoodStore(Cleaned(store, now), now)
    ensures forall f :: f in store ==>
              (f !in Cleaned(store, now) <==>
                  forall k :: k in store[f].channels ==> StaleChannel(store[f].channels[k], now))
    ensures forall f :: f in Cleaned(store, now) ==>
              var d := Cleaned(store, now)[f];
              && f in store && d.anno == store[f].anno && d.lastSeen == store[f].lastSeen
              && (forall k :: k in d.channels <==> k in store[f].channels && now - store[f].channels[k].lastSeen <= 300)
              && (forall k :: k in d.channels ==> d.channels[k] == store[f].channels[k])
  {
    var after := Cleaned(store, now);
    forall f | f in store
      ensures f in after ==> GoodDevice(after[f], now)
      ensures f !in after <==> forall k :: k in store[f].channels ==> StaleChannel(store[f].channels[k], now)
    {
      DroppedIffAllStale(store[f], before, now);
      if f in after {
        var k :| k in store[f].channels && store[f].channels[k].lastSeen == store[f].lastSeen;
        assert k in after[f].channels;
      }
    }
    Shrinks(store, after);
  }

  lemma Shrinks(store: map<string, Device>, after: map<string, Device>)
    requires after.Keys <= store.Keys
    ensures |after| <= |store|
  {
    assert |store| == |store.Keys| && |after| == |after.Keys|;
    assert store.Keys == after.Keys + (store.Keys - after.Keys);
  }

  datatype Event = Put(ip: string, anno: Announcement, at: int) | Cleanup(at: int)

  /** The stores of a run, one after each event, on a clock that never goes back. */
  ghost predicate IsRun(store: map<string, Device>, now: int, events: seq<Event>, stores: seq<map<string, Device>>)
    decreases |events|
  {
    |stores| == |events|
    && (events == []
        || (now <= events[0].at
            && (match events[0]
                case Put(ip, anno, at) => Puts(store, StoreKey(ip, anno), ip, Completed(anno), at, stores[0])
                case Cleanup(at) => stores[0] == Cleaned(store, at))
            && IsRun(stores[0], events[0].at, events[1..], stores[1..])))
  }

  /** Every run of confirmations and cleanups keeps the store good: at most 512 devices, one
      channel per host, and every device as recent as its newest channel. */
  lemma {:induction false} RunKeepsGood(store: map<string, Device>, now: int, events: seq<Event>,
                                        stores: seq<map<string, Device>>)
    requires GoodStore(store, now) && IsRun(store, now, events, stores)
    ensures forall i :: 0 <= i < |stores| ==> GoodStore(stores[i], events[i].at)
    decreases |events|
  {
    if events != [] {
      match events[0] {
        case Put(ip, anno, at) => PutKeepsGood(store, StoreKey(ip, anno), ip, Completed(anno), now, at, stores[0]);
        case Cleanup(at) => CleanupKeepsGood(store, now, at);
      }
      hide GoodStore, Puts, Cleaned;
      RunKeepsGood(stores[0], events[0].at, events[1..], stores[1..]);
      assert forall i :: 0 < i < |stores| ==> stores[i] == stores[1..][i - 1] && events[i] == events[1..][i - 1];
    }
  }
}
