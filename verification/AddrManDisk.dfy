/**
 Writing the address manager to disk and reading it back (addrman.h: the
 serialization block of CAddrMan).

 Only the entries, the counts and the new buckets are written; everything
 else is rebuilt. Main result: SaveAndLoad. The byte codecs of the single
 fields are not part of this model.
 */
module AddrManDisk {
  import opened AddrMan

  /** The written part of an entry. */
  datatype Saved = Saved(addr: Address, source: NetAddr, lastSuccess: int, attempts: int)

  /** The stream: nNew and nTried are the lengths of the lists of entries. */
  datatype Disk = Disk(nKey: Key, news: seq<Saved>, trieds: seq<Saved>, buckets: seq<seq<nat>>)

  function Save(e: Info): Saved {
    Saved(e.addr, e.source, e.lastSuccess, e.attempts)
  }

  function Load(s: Saved, randomPos: nat, inTried: bool): Info {
    Info(s.addr, s.source, 0, s.lastSuccess, s.attempts, 0, inTried, randomPos)
  }

  /** Ids in the order in which they are written. */
  ghost predicate ListOf(order: seq<nat>, ids: set<nat>) {
    && (forall i, j :: 0 <= i < j < |order| ==> order[i] != order[j])
    && Elements(order) == ids
  }

  ghost predicate SavedAs(info: map<nat, Info>, order: seq<nat>, saved: seq<Saved>) {
    && |saved| == |order|
    && forall n :: 0 <= n < |order| ==> order[n] in info && saved[n] == Save(info[order[n]])
  }

  /** A written bucket: the places of its entries in the order, none twice. */
  ghost predicate BucketSavedAs(bucket: set<nat>, order: seq<nat>, list: seq<nat>) {
    && (forall i, j :: 0 <= i < j < |list| ==> list[i] != list[j])
    && (forall k :: 0 <= k < |list| ==> list[k] < |order| && order[list[k]] in bucket)
    && (forall n :: 0 <= n < |order| && order[n] in bucket ==> n in list)
  }

  /** The stream describes the tables. */
  ghost predicate Describes(d: Disk, info: map<nat, Info>, news: seq<set<nat>>, newOrder: seq<nat>,
                            triedOrder: seq<nat>) {
    && ListOf(newOrder, NewIds(info)) && SavedAs(info, newOrder, d.news)
    && ListOf(triedOrder, TriedIds(info)) && SavedAs(info, triedOrder, d.trieds)
    && |d.buckets| == |news| == NEW_BUCKET_COUNT
    && forall b :: 0 <= b < NEW_BUCKET_COUNT ==> BucketSavedAs(news[b], newOrder, d.buckets[b])
  }

  // ----- writing -----

  /** The elements of a set in ascending order, as maps and sets are iterated. */
  ghost function Ascending(s: set<nat>): (r: seq<nat>)
    ensures |r| == |s|
    decreases |s|
  {
    if s == {} then [] else HasLeast(s); var x :| Least(s, x); [x] + Ascending(s - {x})
  }

  lemma {:induction false} AscendingFrom(s: set<nat>, x: nat)
    requires Least(s, x)
    ensures Ascending(s) == [x] + Ascending(s - {x})
  {
  }

  lemma {:induction false} AscendingIsList(s: set<nat>)
    ensures ListOf(Ascending(s), s)
    decreases |s|
  {
    if s == {} {
      assert Elements(Ascending(s)) == {};
    } else {
      HasLeast(s);
      var x :| Least(s, x);
      AscendingFrom(s, x);
      AscendingIsList(s - {x});
      ListGrowsInFront(Ascending(s - {x}), s - {x}, x);
      assert s - {x} + {x} == s;
    }
  }

  lemma ListGrowsInFront(order: seq<nat>, ids: set<nat>, id: nat)
    requires ListOf(order, ids) && id !in ids
    ensures ListOf([id] + order, ids + {id})
  {
    assert Elements([id] + order) == Elements(order) + {id};
    forall i | 0 <= i < |order| ensures order[i] != id {
      assert order[i] in Elements(order);
    }
  }

  lemma ListSize(order: seq<nat>, ids: set<nat>)
    requires ListOf(order, ids)
    ensures |order| == |ids|
  {
    ElementsSize(order);
  }

  lemma SavedGrows(info: map<nat, Info>, order: seq<nat>, saved: seq<Saved>, id: nat)
    requires SavedAs(info, order, saved) && id in info
    ensures SavedAs(info, order + [id], saved + [Save(info[id])])
  {
  }

  /** Each id of the list is mapped to its place. */
  ghost predicate PlacesOf(order: seq<nat>, places: map<nat, nat>) {
    forall n :: 0 <= n < |order| ==> order[n] in places && places[order[n]] == n
  }

  lemma PlacesGrow(order: seq<nat>, places: map<nat, nat>, id: nat)
    requires PlacesOf(order, places) && id !in order
    ensures PlacesOf(order, places[id := |order|]) && PlacesOf(order + [id], places[id := |order|])
  {
  }

  /** An id that is still to come has not been written. */
  lemma {:induction false} NotWritten(order: seq<nat>, tail: seq<nat>, ids: set<nat>, rest: set<nat>, id: nat)
    requires ListOf(order + tail, ids) && ListOf(tail, ids * rest) && id in rest
    ensures id !in order
  {
    forall n, k | 0 <= n < |order| && 0 <= k < |tail| ensures order[n] != tail[k] {
      assert (order + tail)[n] != (order + tail)[|order| + k];
    }
    forall n | 0 <= n < |order| ensures order[n] in ids {
      assert (order + tail)[n] in Elements(order + tail);
    }
    assert id in ids ==> id in Elements(tail);
  }

  /** Of the ids in ascending order, those in order have been written, the others are in rest. */
  ghost predicate PartlyWritten(info: map<nat, Info>, ids: set<nat>, rest: set<nat>, order: seq<nat>,
                                saved: seq<Saved>) {
    Ascending(ids) == order + Ascending(ids * rest) && SavedAs(info, order, saved)
  }

  lemma {:induction false} WrittenStep(info: map<nat, Info>, ids: set<nat>, rest: set<nat>, order: seq<nat>,
                                       saved: seq<Saved>, id: nat)
    requires PartlyWritten(info, ids, rest, order, saved) && Least(rest, id) && id in info
    ensures if id in ids then PartlyWritten(info, ids, rest - {id}, order + [id], saved + [Save(info[id])])
            else PartlyWritten(info, ids, rest - {id}, order, saved)
  {
    if id in ids {
      AscendingFrom(ids * rest, id);
      assert ids * rest - {id} == ids * (rest - {id});
      SavedGrows(info, order, saved, id);
    } else {
      assert ids * rest == ids * (rest - {id});
    }
  }

  /** The loop ends when nothing is left or as many have been written as there are. */
  lemma {:induction false} AllWritten(info: map<nat, Info>, ids: set<nat>, rest: set<nat>, order: seq<nat>,
                                      saved: seq<Saved>)
    requires PartlyWritten(info, ids, rest, order, saved) && (rest == {} || |order| == |ids|)
    ensures SavedAs(info, Ascending(ids), saved) && order == Ascending(ids)
  {
    if rest == {} {
      assert ids * rest == {};
    }
  }

  lemma {:induction false} PlaceStep(info: map<nat, Info>, ids: set<nat>, rest: set<nat>, order: seq<nat>,
                                     saved: seq<Saved>, places: map<nat, nat>, id: nat)
    requires PartlyWritten(info, ids, rest, order, saved) && PlacesOf(order, places) && id in rest
    ensures PlacesOf(order, places[id := |order|]) && PlacesOf(order + [id], places[id := |order|])
  {
    AscendingIsList(ids);
    AscendingIsList(ids * rest);
    NotWritten(order, Ascending(ids * rest), ids, rest, id);
    PlacesGrow(order, places, id);
  }

  /** The first loop: the entries with references in ascending order, and the place of each. */
  method WriteNew(info: map<nat, Info>, nNew: int, ghost ids: set<nat>)
    returns (saved: seq<Saved>, mapUnkIds: map<nat, nat>)
    requires nNew == |ids| && ids <= info.Keys
    requires forall id :: id in info ==> (info[id].refCount != 0 <==> id in ids)
    ensures SavedAs(info, Ascending(ids), saved) && PlacesOf(Ascending(ids), mapUnkIds)
  {
    saved, mapUnkIds := [], map[];
    ghost var order: seq<nat> := [];
    var nIds := 0;
    var rest := info.Keys;
    assert ids * rest == ids;
    while rest != {}
      invariant rest <= info.Keys && nIds == |order|
      invariant PartlyWritten(info, ids, rest, order, saved) && PlacesOf(order, mapUnkIds)
      decreases |rest|
    {
      if nIds == nNew {
        break;
      }
      HasLeast(rest);
      var id :| id in rest && forall y :: y in rest ==> id <= y;
      WrittenStep(info, ids, rest, order, saved, id);
      PlaceStep(info, ids, rest, order, saved, mapUnkIds, id);
      rest := rest - {id};
      mapUnkIds := mapUnkIds[id := nIds];
      if info[id].refCount != 0 {
        saved := saved + [Save(info[id])];
        order := order + [id];
        nIds := nIds + 1;
      }
    }
    AllWritten(info, ids, rest, order, saved);
  }

  /** The second loop: the tried entries in ascending order. */
  method WriteTried(info: map<nat, Info>, nTried: int, ghost ids: set<nat>) returns (saved: seq<Saved>)
    requires nTried == |ids| && ids <= info.Keys
    requires forall id :: id in info ==> (info[id].inTried <==> id in ids)
    ensures SavedAs(info, Ascending(ids), saved)
  {
    saved := [];
    ghost var order: seq<nat> := [];
    var nIds := 0;
    var rest := info.Keys;
    assert ids * rest == ids;
    while rest != {}
      invariant rest <= info.Keys && nIds == |order|
      invariant PartlyWritten(info, ids, rest, order, saved)
      decreases |rest|
    {
      if nIds == nTried {
        break;
      }
      HasLeast(rest);
      var id :| id in rest && forall y :: y in rest ==> id <= y;
      WrittenStep(info, ids, rest, order, saved, id);
      rest := rest - {id};
      if info[id].inTried {
        saved := saved + [Save(info[id])];
        order := order + [id];
        nIds := nIds + 1;
      }
    }
    AllWritten(info, ids, rest, order, saved);
  }

  /** The third loop, for one bucket: the places of its entries. */
  method WriteBucket(bucket: set<nat>, mapUnkIds: map<nat, nat>, ghost order: seq<nat>) returns (list: seq<nat>)
    requires bucket <= Elements(order)
    requires PlacesOf(order, mapUnkIds)
    ensures BucketSavedAs(bucket, order, list)
  {
    list := [];
    var rest := bucket;
    while rest != {}
      invariant rest <= bucket
      invariant BucketSavedAs(bucket - rest, order, list)
      decreases |rest|
    {
      HasLeast(rest);
      var id :| id in rest && forall y :: y in rest ==> id <= y;
      ghost var n :| 0 <= n < |order| && order[n] == id;
      var nIndex := if id in mapUnkIds then mapUnkIds[id] else 0;
      PlaceAdded(bucket - rest, order, list, n);
      list := list + [nIndex];
      assert bucket - rest + {id} == bucket - (rest - {id});
      rest := rest - {id};
    }
    assert bucket - rest == bucket;
  }

  lemma PlaceAdded(bucket: set<nat>, order: seq<nat>, list: seq<nat>, n: nat)
    requires BucketSavedAs(bucket, order, list) && n < |order| && order[n] !in bucket
    requires forall i, j :: 0 <= i < j < |order| ==> order[i] != order[j]
    ensures BucketSavedAs(bucket + {order[n]}, order, list + [n])
  {
    var l := list + [n];
    assert l[|list|] == n;
    forall m | 0 <= m < |order| && order[m] in bucket + {order[n]} ensures m in l {
      if m != n {
        assert m in list;
      }
    }
  }

  /** Exactly the entries with references are not tried, and only they are in new buckets. */
  lemma NewHaveReferences(info: map<nat, Info>, news: seq<set<nat>>)
    requires NewBucketsOk(info, news) && RefsOk(info, news, -1)
    ensures forall id :: id in info ==> (info[id].refCount != 0 <==> !info[id].inTried)
    ensures forall b :: 0 <= b < NEW_BUCKET_COUNT ==> news[b] <= NewIds(info)
  {
    forall id | id in info ensures info[id].refCount != 0 <==> !info[id].inTried {
      assert RefOk(info[id], Occurrences(news, id));
    }
    forall b, id | 0 <= b < NEW_BUCKET_COUNT && id in news[b] ensures id in NewIds(info) {
      OccurrencesPositive(news, id);
      assert RefOk(info[id], Occurrences(news, id));
    }
  }

  method Write(am: AddrManager) returns (d: Disk)
    requires am.Consistent()
    ensures d.nKey == am.nKey
    ensures Describes(d, am.mapInfo, am.vvNew, Ascending(NewIds(am.mapInfo)), Ascending(TriedIds(am.mapInfo)))
  {
    NewHaveReferences(am.mapInfo, am.vvNew);
    ghost var newOrder := Ascending(NewIds(am.mapInfo));
    AscendingIsList(NewIds(am.mapInfo));
    AscendingIsList(TriedIds(am.mapInfo));
    var news, mapUnkIds := WriteNew(am.mapInfo, am.nNew, NewIds(am.mapInfo));
    var trieds := WriteTried(am.mapInfo, am.nTried, TriedIds(am.mapInfo));
    var buckets := WriteBuckets(am.vvNew, mapUnkIds, newOrder);
    d := Disk(am.nKey, news, trieds, buckets);
  }

  method WriteBuckets(vvNew: seq<set<nat>>, mapUnkIds: map<nat, nat>, ghost order: seq<nat>)
    returns (buckets: seq<seq<nat>>)
    requires PlacesOf(order, mapUnkIds) && forall b :: 0 <= b < |vvNew| ==> vvNew[b] <= Elements(order)
    ensures |buckets| == |vvNew| && forall b :: 0 <= b < |vvNew| ==> BucketSavedAs(vvNew[b], order, buckets[b])
  {
    buckets := [];
    for b := 0 to |vvNew|
      invariant |buckets| == b
      invariant forall k :: 0 <= k < b ==> BucketSavedAs(vvNew[k], order, buckets[k])
    {
      var list := WriteBucket(vvNew[b], mapUnkIds, order);
      buckets := buckets + [list];
    }
  }

  // ----- reading -----

  /** The entries loaded so far, in the order of their ids; those from nNew on are tried. */
  ghost predicate EntriesLoaded(loaded: seq<Saved>, nNew: nat, info: map<nat, Info>) {
    && (forall id: nat :: id in info <==> id < |loaded|)
    && (forall id {:trigger info[id]} :: 0 <= id < |loaded| ==>
          info[id] == Load(loaded[id], id, id >= nNew).(refCount := info[id].refCount))
  }

  ghost predicate RandomLoaded(n: nat, random: seq<nat>) {
    |random| == n && forall i :: 0 <= i < n ==> random[i] == i
  }

  ghost predicate AddrLoaded(loaded: seq<Saved>, addr: map<NetAddr, nat>) {
    && (forall a :: a in addr ==> addr[a] < |loaded| && loaded[addr[a]].addr.service.net == a)
    && (forall n :: 0 <= n < |loaded| ==> loaded[n].addr.service.net in addr)
  }

  function SavedBucket(w: Network, key: Key, s: Saved): (b: nat)
    ensures b < TRIED_BUCKET_COUNT
  {
    TriedBucket(w, key, Load(s, 0, true))
  }

  ghost predicate TriedLoaded(w: Network, key: Key, loaded: seq<Saved>, nNew: nat, tried: seq<seq<nat>>) {
    && |tried| == TRIED_BUCKET_COUNT
    && (forall b :: 0 <= b < TRIED_BUCKET_COUNT ==> TriedBucketLoaded(w, key, loaded, nNew, tried[b], b))
    && (forall id :: nNew <= id < |loaded| ==> id in tried[SavedBucket(w, key, loaded[id])])
  }

  ghost predicate TriedBucketLoaded(w: Network, key: Key, loaded: seq<Saved>, nNew: nat, bucket: seq<nat>, b: nat) {
    && |bucket| <= TRIED_BUCKET_SIZE
    && (forall i, j :: 0 <= i < j < |bucket| ==> bucket[i] != bucket[j])
    && (forall i :: 0 <= i < |bucket| ==> nNew <= bucket[i] < |loaded| && SavedBucket(w, key, loaded[bucket[i]]) == b)
  }

  predicate OwnBucket(w: Network, key: Key, news: seq<Saved>, n: nat, b: nat) {
    n < |news| && NewBucket(w, key, Load(news[n], 0, false), news[n].source) == b
  }

  /** The new buckets when each entry goes to the bucket of its own source. */
  ghost predicate Rebuilt(w: Network, key: Key, news: seq<Saved>, buckets: seq<set<nat>>) {
    && |buckets| == NEW_BUCKET_COUNT
    && forall b: nat, n: nat :: b < NEW_BUCKET_COUNT ==>
         (n in buckets[b] <==> OwnBucket(w, key, news, n, b))
  }

  lemma EntryAdded(loaded: seq<Saved>, nNew: nat, info: map<nat, Info>, random: seq<nat>, addr: map<NetAddr, nat>,
                   s: Saved, e: Info)
    requires EntriesLoaded(loaded, nNew, info) && RandomLoaded(|loaded|, random) && AddrLoaded(loaded, addr)
    requires e == Load(s, |loaded|, |loaded| >= nNew).(refCount := e.refCount)
    ensures EntriesLoaded(loaded + [s], nNew, info[|loaded| := e])
    ensures RandomLoaded(|loaded + [s]|, random + [|loaded|])
    ensures AddrLoaded(loaded + [s], addr[s.addr.service.net := |loaded|])
  {
  }

  lemma TriedAdded(w: Network, key: Key, loaded: seq<Saved>, nNew: nat, tried: seq<seq<nat>>, s: Saved, b: nat)
    requires TriedLoaded(w, key, loaded, nNew, tried) && nNew <= |loaded|
    requires b == SavedBucket(w, key, s) && |tried[b]| < TRIED_BUCKET_SIZE
    ensures TriedLoaded(w, key, loaded + [s], nNew, tried[b := tried[b] + [|loaded|]])
  {
    var now := tried[b := tried[b] + [|loaded|]];
    forall k | 0 <= k < TRIED_BUCKET_COUNT ensures TriedBucketLoaded(w, key, loaded + [s], nNew, now[k], k) {
      assert TriedBucketLoaded(w, key, loaded, nNew, tried[k], k);
    }
    forall id | nNew <= id < |loaded + [s]| ensures id in now[SavedBucket(w, key, (loaded + [s])[id])] {
      if id == |loaded| {
        assert now[b][|tried[b]|] == id;
      } else {
        assert id in tried[SavedBucket(w, key, loaded[id])];
      }
    }
  }

  /** The first loop of reading: entries with references, whose buckets follow later if their number is unchanged. */
  method LoadNew(w: Network, d: Disk)
    returns (info: map<nat, Info>, addr: map<NetAddr, nat>, random: seq<nat>, vvNew: seq<set<nat>>)
    ensures EntriesLoaded(d.news, |d.news|, info) && RandomLoaded(|d.news|, random) && AddrLoaded(d.news, addr)
    ensures if |d.buckets| == NEW_BUCKET_COUNT
            then vvNew == seq(NEW_BUCKET_COUNT, _ => {}) && forall id :: id in info ==> info[id].refCount == 0
            else Rebuilt(w, d.nKey, d.news, vvNew) && forall id :: id in info ==> info[id].refCount == 1
  {
    info, addr, random := map[], map[], [];
    vvNew := seq(NEW_BUCKET_COUNT, _ => {});
    for n := 0 to |d.news|
      invariant EntriesLoaded(d.news[..n], |d.news|, info) && RandomLoaded(n, random) && AddrLoaded(d.news[..n], addr)
      invariant if |d.buckets| == NEW_BUCKET_COUNT
                then vvNew == seq(NEW_BUCKET_COUNT, _ => {}) && forall id :: id in info ==> info[id].refCount == 0
                else Rebuilt(w, d.nKey, d.news[..n], vvNew) && forall id :: id in info ==> info[id].refCount == 1
    {
      var e := Load(d.news[n], |random|, false);
      if |d.buckets| != NEW_BUCKET_COUNT {
        var b := NewBucket(w, d.nKey, e, e.source);
        RebuiltAdded(w, d.nKey, d.news[..n], vvNew, d.news[n], b);
        vvNew := vvNew[b := vvNew[b] + {n}];
        e := e.(refCount := e.refCount + 1);
      }
      EntryAdded(d.news[..n], |d.news|, info, random, addr, d.news[n], e);
      assert d.news[..n + 1] == d.news[..n] + [d.news[n]];
      addr := addr[e.Net() := n];
      random := random + [n];
      info := info[n := e];
    }
    assert d.news[..|d.news|] == d.news;
  }

  lemma RebuiltAdded(w: Network, key: Key, news: seq<Saved>, buckets: seq<set<nat>>, s: Saved, b: nat)
    requires Rebuilt(w, key, news, buckets) && b == NewBucket(w, key, Load(s, 0, false), s.source)
    ensures Rebuilt(w, key, news + [s], buckets[b := buckets[b] + {|news|}])
  {
    var all, now := news + [s], buckets[b := buckets[b] + {|news|}];
    forall k: nat, n: nat | k < NEW_BUCKET_COUNT ensures n in now[k] <==> OwnBucket(w, key, all, n, k) {
      assert n in buckets[k] <==> OwnBucket(w, key, news, n, k);
    }
  }

  /** How many of the entries belong into a tried bucket. */
  ghost function BucketLoad(w: Network, key: Key, trieds: seq<Saved>, b: nat): nat {
    if trieds == [] then 0
    else BucketLoad(w, key, trieds[..|trieds| - 1], b) +
           (if SavedBucket(w, key, trieds[|trieds| - 1]) == b then 1 else 0)
  }

  lemma {:induction false} BucketLoadPrefix(w: Network, key: Key, trieds: seq<Saved>, b: nat, n: nat)
    requires n <= |trieds|
    ensures BucketLoad(w, key, trieds[..n], b) <= BucketLoad(w, key, trieds, b)
    decreases |trieds|
  {
    if n < |trieds| {
      var k := |trieds| - 1;
      BucketLoadPrefix(w, key, trieds[..k], b, n);
      assert trieds[..k][..n] == trieds[..n];
    } else {
      assert trieds[..n] == trieds;
    }
  }

  lemma BucketLoadStep(w: Network, key: Key, trieds: seq<Saved>, n: nat, b: nat)
    requires n < |trieds|
    ensures BucketLoad(w, key, trieds[..n + 1], b) ==
            BucketLoad(w, key, trieds[..n], b) + (if SavedBucket(w, key, trieds[n]) == b then 1 else 0)
  {
    assert trieds[..n + 1][..n] == trieds[..n];
  }

  /** Every tried bucket has room for its entries. */
  ghost predicate Fits(w: Network, key: Key, trieds: seq<Saved>) {
    forall b :: 0 <= b < TRIED_BUCKET_COUNT ==> BucketLoad(w, key, trieds, b) <= TRIED_BUCKET_SIZE
  }

  /** While nothing is lost, the buckets hold what belongs into them. */
  ghost predicate LoadsAre(w: Network, key: Key, trieds: seq<Saved>, tried: seq<seq<nat>>) {
    |tried| == TRIED_BUCKET_COUNT && forall b :: 0 <= b < TRIED_BUCKET_COUNT ==>
      |tried[b]| == BucketLoad(w, key, trieds, b)
  }

  lemma LoadsAreStep(w: Network, key: Key, trieds: seq<Saved>, n: nat, tried: seq<seq<nat>>, b: nat, id: nat)
    requires n < |trieds| && LoadsAre(w, key, trieds[..n], tried) && b == SavedBucket(w, key, trieds[n])
    ensures LoadsAre(w, key, trieds[..n + 1], tried[b := tried[b] + [id]])
    ensures Fits(w, key, trieds) ==> |tried[b]| < TRIED_BUCKET_SIZE
  {
    var now := tried[b := tried[b] + [id]];
    forall k | 0 <= k < TRIED_BUCKET_COUNT ensures |now[k]| == BucketLoad(w, key, trieds[..n + 1], k) {
      BucketLoadStep(w, key, trieds, n, k);
    }
    BucketLoadStep(w, key, trieds, n, b);
    BucketLoadPrefix(w, key, trieds, b, n + 1);
  }

  /** The second loop of reading: entries that find room in their tried bucket; the others are lost. */
  method LoadTried(w: Network, d: Disk, info0: map<nat, Info>, addr0: map<NetAddr, nat>, random0: seq<nat>)
    returns (info: map<nat, Info>, addr: map<NetAddr, nat>, random: seq<nat>, vvTried: seq<seq<nat>>, nLost: nat,
             ghost loaded: seq<Saved>)
    requires EntriesLoaded(d.news, |d.news|, info0) && RandomLoaded(|d.news|, random0) && AddrLoaded(d.news, addr0)
    ensures |d.news| <= |loaded| == |d.news| + |d.trieds| - nLost
    ensures EntriesLoaded(loaded, |d.news|, info) && RandomLoaded(|loaded|, random) && AddrLoaded(loaded, addr)
    ensures TriedLoaded(w, d.nKey, loaded, |d.news|, vvTried)
    ensures forall id :: id in info ==> info[id].refCount == if id in info0 then info0[id].refCount else 0
    ensures Fits(w, d.nKey, d.trieds) ==> nLost == 0 && loaded == d.news + d.trieds
  {
    info, addr, random, nLost, loaded := info0, addr0, random0, 0, d.news;
    vvTried := seq(TRIED_BUCKET_COUNT, _ => []);
    var nIdCount := |d.news|;
    for n := 0 to |d.trieds|
      invariant nIdCount == |loaded| == |d.news| + n - nLost && nIdCount >= |d.news|
      invariant EntriesLoaded(loaded, |d.news|, info) && RandomLoaded(nIdCount, random) && AddrLoaded(loaded, addr)
      invariant TriedLoaded(w, d.nKey, loaded, |d.news|, vvTried)
      invariant forall id :: id in info ==> info[id].refCount == if id in info0 then info0[id].refCount else 0
      invariant Fits(w, d.nKey, d.trieds) ==>
                  nLost == 0 && loaded == d.news + d.trieds[..n] && LoadsAre(w, d.nKey, d.trieds[..n], vvTried)
    {
      var e := Load(d.trieds[n], 0, false);
      var b := TriedBucket(w, d.nKey, e);
      if Fits(w, d.nKey, d.trieds) {
        LoadsAreStep(w, d.nKey, d.trieds, n, vvTried, b, nIdCount);
        assert (d.news + d.trieds[..n]) + [d.trieds[n]] == d.news + d.trieds[..n + 1];
      }
      if |vvTried[b]| < TRIED_BUCKET_SIZE {
        e := e.(randomPos := |random|, inTried := true);
        EntryAdded(loaded, |d.news|, info, random, addr, d.trieds[n], e);
        TriedAdded(w, d.nKey, loaded, |d.news|, vvTried, d.trieds[n], b);
        random := random + [nIdCount];
        info := info[nIdCount := e];
        addr := addr[e.Net() := nIdCount];
        vvTried := vvTried[b := vvTried[b] + [nIdCount]];
        loaded := loaded + [d.trieds[n]];
        nIdCount := nIdCount + 1;
      } else {
        nLost := nLost + 1;
      }
    }
    assert d.trieds[..|d.trieds|] == d.trieds;
  }

  /** The new buckets as sets. */
  ghost function Sets(lists: seq<seq<nat>>): (r: seq<set<nat>>)
    ensures |r| == |lists| && forall b :: 0 <= b < |lists| ==> r[b] == Elements(lists[b])
  {
    seq(|lists|, b requires 0 <= b < |lists| => Elements(lists[b]))
  }

  /** The written buckets name entries with references, none of them too often. */
  ghost predicate BucketsGood(lists: seq<seq<nat>>, n: nat) {
    && |lists| == NEW_BUCKET_COUNT
    && (forall b, k :: 0 <= b < |lists| && 0 <= k < |lists[b]| ==> lists[b][k] < n)
    && (forall b, j, k :: 0 <= b < |lists| && 0 <= j < k < |lists[b]| ==> lists[b][j] != lists[b][k])
    && (forall x :: Occurrences(Sets(lists), x) <= NEW_BUCKETS_PER_ADDRESS)
  }

  lemma {:induction false} FewerOccurrences(a: seq<set<nat>>, c: seq<set<nat>>, b: nat, x: nat)
    requires |a| == |c| && b < |a| && x !in a[b] && x in c[b] && forall k :: 0 <= k < |a| ==> a[k] <= c[k]
    ensures Occurrences(a, x) < Occurrences(c, x)
    decreases |a|
  {
    var n := |a| - 1;
    if b < n {
      FewerOccurrences(a[..n], c[..n], b, x);
    } else {
      NotMoreOccurrences(a[..n], c[..n], x);
    }
  }

  lemma {:induction false} NotMoreOccurrences(a: seq<set<nat>>, c: seq<set<nat>>, x: nat)
    requires |a| == |c| && forall k :: 0 <= k < |a| ==> a[k] <= c[k]
    ensures Occurrences(a, x) <= Occurrences(c, x)
    decreases |a|
  {
    if a != [] {
      NotMoreOccurrences(a[..|a| - 1], c[..|a| - 1], x);
      assert a[|a| - 1] <= c[|a| - 1];
    }
  }

  /** The buckets when b of them have been read, and k places of the next. */
  ghost predicate Partly(lists: seq<seq<nat>>, b: nat, k: nat, buckets: seq<set<nat>>) {
    && |lists| == |buckets| && b <= |lists| && (b < |lists| ==> k <= |lists[b]|)
    && forall i :: 0 <= i < |lists| ==>
         buckets[i] == if i < b then Elements(lists[i]) else if i == b then Elements(lists[i][..k]) else {}
  }

  /** Reference counts are the numbers of occurrences. */
  ghost predicate Counted(base: map<nat, Info>, info: map<nat, Info>, buckets: seq<set<nat>>) {
    && info.Keys == base.Keys
    && forall x {:trigger info[x]} :: x in info ==> info[x] == base[x].(refCount := Occurrences(buckets, x))
  }

  lemma PlaceRead(lists: seq<seq<nat>>, n: nat, b: nat, k: nat, buckets: seq<set<nat>>)
    requires BucketsGood(lists, n) && b < |lists| && k < |lists[b]| && Partly(lists, b, k, buckets)
    ensures Occurrences(buckets, lists[b][k]) < NEW_BUCKETS_PER_ADDRESS
    ensures lists[b][k] !in buckets[b]
    ensures Partly(lists, b, k + 1, buckets[b := buckets[b] + {lists[b][k]}])
  {
    var x := lists[b][k];
    assert lists[b][..k + 1] == lists[b][..k] + [x];
    assert Elements(lists[b][..k + 1]) == Elements(lists[b][..k]) + {x};
    FewerOccurrences(buckets, Sets(lists), b, x);
  }

  lemma CountedStep(base: map<nat, Info>, info: map<nat, Info>, buckets: seq<set<nat>>, b: nat, x: nat)
    requires Counted(base, info, buckets) && b < |buckets| && x in info && x !in buckets[b]
    ensures Counted(base, info[x := info[x].(refCount := info[x].refCount + 1)], buckets[b := buckets[b] + {x}])
  {
    forall y
      ensures Occurrences(buckets[b := buckets[b] + {x}], y) == Occurrences(buckets, y) + (if y == x then 1 else 0)
    {
      OccurrencesUpdate(buckets, b, buckets[b] + {x}, y);
    }
  }

  lemma NextList(lists: seq<seq<nat>>, b: nat, buckets: seq<set<nat>>)
    requires b < |lists| && Partly(lists, b, |lists[b]|, buckets)
    ensures Partly(lists, b + 1, 0, buckets)
  {
    assert lists[b][..|lists[b]|] == lists[b];
  }

  /** An entry that a damaged file refers to without having written it. */
  const DEFAULT_INFO := Info(Address(Service(0, 0), {}, 0), 0, 0, 0, 0, 0, false, -1)

  /** The part of list i that has been read after b lists and k places of the next. */
  function ReadPart(lists: seq<seq<nat>>, b: nat, k: nat, i: nat): seq<nat>
    requires i < |lists| && (b < |lists| ==> k <= |lists[b]|)
  {
    if i < b then lists[i] else if i == b then lists[i][..k] else []
  }

  ghost predicate Named(lists: seq<seq<nat>>, b: nat, k: nat, x: nat)
    requires b < |lists| ==> k <= |lists[b]|
  {
    exists i :: 0 <= i < |lists| && x in ReadPart(lists, b, k, i)
  }

  /** Entries keep all but their reference counts; exactly those named and unknown are added. */
  ghost predicate EntriesKept(lists: seq<seq<nat>>, b: nat, k: nat, base: map<nat, Info>, info: map<nat, Info>)
    requires b < |lists| ==> k <= |lists[b]|
  {
    && (forall x: nat :: x in info <==> x in base || Named(lists, b, k, x))
    && (forall x {:trigger info[x]} :: x in info ==>
          info[x] == (if x in base then base[x] else DEFAULT_INFO).(refCount := info[x].refCount))
  }

  /**
   What any lists make of empty buckets: a bucket holds only entries its list
   names, and all of them except for entries that have all their references; the
   counts are never too large, and never below the number of buckets.
   */
  ghost predicate Referred(lists: seq<seq<nat>>, b: nat, k: nat, info: map<nat, Info>, vvNew: seq<set<nat>>)
    requires b < |lists| ==> k <= |lists[b]|
  {
    && |vvNew| == |lists|
    && (forall x {:trigger info[x]} :: x in info ==>
          Occurrences(vvNew, x) <= info[x].refCount <= NEW_BUCKETS_PER_ADDRESS)
    && (forall i: nat, x: nat :: i < |lists| ==> PlaceOk(ReadPart(lists, b, k, i), info, vvNew[i], x))
  }

  /** What a list and its bucket say of an entry. */
  predicate PlaceOk(part: seq<nat>, info: map<nat, Info>, bucket: set<nat>, x: nat) {
    && (x in bucket ==> x in info && x in part)
    && (x in part && x in info && info[x].refCount < NEW_BUCKETS_PER_ADDRESS ==> x in bucket)
  }

  /** One place of a list. */
  function WithReference(info: map<nat, Info>, x: nat): map<nat, Info>
    requires x in info
  {
    info[x := info[x].(refCount := info[x].refCount + 1)]
  }

  function WithEntry(info: map<nat, Info>, x: nat): map<nat, Info> {
    if x in info then info else info[x := DEFAULT_INFO]
  }

  lemma ReadPlace(lists: seq<seq<nat>>, b: nat, k: nat, i: nat, x: nat)
    requires b < |lists| && k < |lists[b]| && i < |lists|
    ensures x in ReadPart(lists, b, k + 1, i) <==> x in ReadPart(lists, b, k, i) || (i == b && x == lists[b][k])
  {
    assert lists[b][..k + 1] == lists[b][..k] + [lists[b][k]];
  }

  /** Whatever is named in one state of the loop is named in another that has read at least as much. */
  lemma StillNamed(lists: seq<seq<nat>>, b: nat, k: nat, c: nat, l: nat, x: nat)
    requires (b < |lists| ==> k <= |lists[b]|) && (c < |lists| ==> l <= |lists[c]|)
    requires forall i :: 0 <= i < |lists| && x in ReadPart(lists, b, k, i) ==> x in ReadPart(lists, c, l, i)
    ensures Named(lists, b, k, x) ==> Named(lists, c, l, x)
  {
    if Named(lists, b, k, x) {
      var i :| 0 <= i < |lists| && x in ReadPart(lists, b, k, i);
      assert x in ReadPart(lists, c, l, i);
    }
  }

  lemma NamedPlace(lists: seq<seq<nat>>, b: nat, k: nat, x: nat)
    requires b < |lists| && k < |lists[b]|
    ensures Named(lists, b, k + 1, x) <==> Named(lists, b, k, x) || x == lists[b][k]
  {
    forall i | 0 <= i < |lists|
      ensures x in ReadPart(lists, b, k + 1, i) <==> x in ReadPart(lists, b, k, i) || (i == b && x == lists[b][k])
    {
      ReadPlace(lists, b, k, i, x);
    }
    StillNamed(lists, b, k, b, k + 1, x);
    if x == lists[b][k] {
      assert x in ReadPart(lists, b, k + 1, b);
    } else {
      StillNamed(lists, b, k + 1, b, k, x);
    }
  }

  lemma KeptStep(lists: seq<seq<nat>>, b: nat, k: nat, base: map<nat, Info>, info: map<nat, Info>, now: map<nat, Info>)
    requires b < |lists| && k < |lists[b]| && EntriesKept(lists, b, k, base, info)
    requires var x := lists[b][k];
             now == WithEntry(info, x) || now == WithReference(WithEntry(info, x), x)
    ensures EntriesKept(lists, b, k + 1, base, now)
  {
    var x := lists[b][k];
    forall y: nat ensures y in now <==> y in base || Named(lists, b, k + 1, y) {
      NamedPlace(lists, b, k, y);
    }
  }

  lemma ReferredFull(lists: seq<seq<nat>>, b: nat, k: nat, info: map<nat, Info>, vvNew: seq<set<nat>>)
    requires b < |lists| && k < |lists[b]| && Referred(lists, b, k, info, vvNew)
    requires lists[b][k] in info && info[lists[b][k]].refCount >= NEW_BUCKETS_PER_ADDRESS
    ensures Referred(lists, b, k + 1, info, vvNew)
  {
    var l := k + 1;
    forall i: nat, x: nat | i < |lists| ensures PlaceOk(ReadPart(lists, b, l, i), info, vvNew[i], x) {
      assert PlaceOk(ReadPart(lists, b, k, i), info, vvNew[i], x);
      ReadPlace(lists, b, k, i, x);
    }
  }

  lemma ReferredMore(lists: seq<seq<nat>>, b: nat, k: nat, info: map<nat, Info>, vvNew: seq<set<nat>>, x: nat)
    requires b < |lists| && k < |lists[b]| && Referred(lists, b, k, info, vvNew) && x == lists[b][k]
    requires x in info && info[x].refCount < NEW_BUCKETS_PER_ADDRESS
    ensures Referred(lists, b, k + 1, WithReference(info, x), vvNew[b := vvNew[b] + {x}])
  {
    var now := vvNew[b := vvNew[b] + {x}];
    forall y
      ensures Occurrences(now, y) == Occurrences(vvNew, y) + (if y == x && x !in vvNew[b] then 1 else 0)
    {
      OccurrencesUpdate(vvNew, b, vvNew[b] + {x}, y);
    }
    var l := k + 1;
    forall i: nat, y: nat | i < |lists|
      ensures PlaceOk(ReadPart(lists, b, l, i), WithReference(info, x), now[i], y)
    {
      assert PlaceOk(ReadPart(lists, b, k, i), info, vvNew[i], y);
      ReadPlace(lists, b, k, i, y);
    }
  }

  lemma ReferredEntry(lists: seq<seq<nat>>, b: nat, k: nat, base: map<nat, Info>, info: map<nat, Info>,
                      vvNew: seq<set<nat>>, x: nat)
    requires (b < |lists| ==> k <= |lists[b]|) && Referred(lists, b, k, info, vvNew)
    requires EntriesKept(lists, b, k, base, info)
    ensures Referred(lists, b, k, WithEntry(info, x), vvNew)
  {
    var now := WithEntry(info, x);
    if x !in info {
      forall i: nat | i < |lists| ensures x !in vvNew[i] && x !in ReadPart(lists, b, k, i) {
        assert PlaceOk(ReadPart(lists, b, k, i), info, vvNew[i], x);
        assert !Named(lists, b, k, x);
      }
      if Occurrences(vvNew, x) > 0 {
        OccurrencesPositive(vvNew, x);
      }
    }
    forall i: nat, y: nat | i < |lists| ensures PlaceOk(ReadPart(lists, b, k, i), now, vvNew[i], y) {
      assert PlaceOk(ReadPart(lists, b, k, i), info, vvNew[i], y);
    }
  }

  lemma NextPart(lists: seq<seq<nat>>, b: nat, base: map<nat, Info>, info: map<nat, Info>, vvNew: seq<set<nat>>)
    requires b < |lists| && EntriesKept(lists, b, |lists[b]|, base, info)
    ensures EntriesKept(lists, b + 1, 0, base, info)
    ensures Referred(lists, b, |lists[b]|, info, vvNew) ==> Referred(lists, b + 1, 0, info, vvNew)
  {
    var n, c := |lists[b]|, b + 1;
    forall i | 0 <= i < |lists| ensures ReadPart(lists, c, 0, i) == ReadPart(lists, b, n, i) {
      assert lists[b][..n] == lists[b] && lists[i][..0] == [];
    }
    forall x: nat ensures Named(lists, c, 0, x) <==> Named(lists, b, n, x) {
      StillNamed(lists, b, n, c, 0, x);
      StillNamed(lists, c, 0, b, n, x);
    }
    if Referred(lists, b, n, info, vvNew) {
      forall i: nat, x: nat | i < |lists| ensures PlaceOk(ReadPart(lists, c, 0, i), info, vvNew[i], x) {
        assert PlaceOk(ReadPart(lists, b, n, i), info, vvNew[i], x);
      }
    }
  }

  /** The state of the third loop. */
  ghost predicate Reading(lists: seq<seq<nat>>, b: nat, k: nat, base: map<nat, Info>, vvNew0: seq<set<nat>>,
                          info: map<nat, Info>, vvNew: seq<set<nat>>) {
    && (b < |lists| ==> k <= |lists[b]|) && |vvNew| == NEW_BUCKET_COUNT
    && EntriesKept(lists, b, k, base, info)
    && if |lists| == NEW_BUCKET_COUNT then Referred(lists, b, k, info, vvNew)
       else vvNew == vvNew0 && forall x :: x in info ==> info[x].refCount == if x in base then base[x].refCount else 0
  }

  /** One place: the entry is found or made, and referred to if it still may be. */
  method ReadReference(info0: map<nat, Info>, vvNew0: seq<set<nat>>, b: nat, nIndex: nat, sameCount: bool)
    returns (info: map<nat, Info>, vvNew: seq<set<nat>>)
    requires b < |vvNew0| || !sameCount
    ensures var e := WithEntry(info0, nIndex);
            if sameCount && e[nIndex].refCount < NEW_BUCKETS_PER_ADDRESS
            then info == WithReference(e, nIndex) && vvNew == vvNew0[b := vvNew0[b] + {nIndex}]
            else info == e && vvNew == vvNew0
  {
    info, vvNew := info0, vvNew0;
    if nIndex !in info {
      info := info[nIndex := DEFAULT_INFO];
    }
    if sameCount && info[nIndex].refCount < NEW_BUCKETS_PER_ADDRESS {
      info := info[nIndex := info[nIndex].(refCount := info[nIndex].refCount + 1)];
      vvNew := vvNew[b := vvNew[b] + {nIndex}];
    }
  }

  lemma ReadingStep(lists: seq<seq<nat>>, b: nat, k: nat, base: map<nat, Info>, start: seq<set<nat>>,
                    info: map<nat, Info>, vvNew: seq<set<nat>>, x: nat)
    requires b < |lists| && k < |lists[b]| && Reading(lists, b, k, base, start, info, vvNew) && x == lists[b][k]
    ensures var e := WithEntry(info, x);
            if |lists| == NEW_BUCKET_COUNT && e[x].refCount < NEW_BUCKETS_PER_ADDRESS
            then Reading(lists, b, k + 1, base, start, WithReference(e, x), vvNew[b := vvNew[b] + {x}])
            else Reading(lists, b, k + 1, base, start, e, vvNew)
  {
    var e := WithEntry(info, x);
    if |lists| != NEW_BUCKET_COUNT {
      KeptStep(lists, b, k, base, info, e);
    } else {
      ReferredEntry(lists, b, k, base, info, vvNew, x);
      if e[x].refCount < NEW_BUCKETS_PER_ADDRESS {
        KeptStep(lists, b, k, base, info, WithReference(e, x));
        ReferredMore(lists, b, k, e, vvNew, x);
      } else {
        KeptStep(lists, b, k, base, info, e);
        ReferredFull(lists, b, k, e, vvNew);
      }
    }
  }

  /** Buckets in order, of which some have been read: the buckets and counts are exactly those written so far. */
  ghost predicate InOrder(lists: seq<seq<nat>>, n: nat, b: nat, k: nat, base: map<nat, Info>, info: map<nat, Info>,
                          vvNew: seq<set<nat>>) {
    BucketsGood(lists, n) && (forall x: nat :: x < n ==> x in base) && Partly(lists, b, k, vvNew)
    && Counted(base, info, vvNew)
  }

  lemma InOrderStep(lists: seq<seq<nat>>, n: nat, b: nat, k: nat, base: map<nat, Info>, info: map<nat, Info>,
                    vvNew: seq<set<nat>>, x: nat)
    requires b < |lists| && k < |lists[b]| && InOrder(lists, n, b, k, base, info, vvNew) && x == lists[b][k]
    ensures x in info && info[x].refCount < NEW_BUCKETS_PER_ADDRESS
    ensures InOrder(lists, n, b, k + 1, base, WithReference(info, x), vvNew[b := vvNew[b] + {x}])
  {
    PlaceRead(lists, n, b, k, vvNew);
    assert x < n && x in base;
    CountedStep(base, info, vvNew, b, x);
  }

  /** The third loop of reading: the new buckets, if their number is unchanged. */
  method LoadBuckets(lists: seq<seq<nat>>, info0: map<nat, Info>, vvNew0: seq<set<nat>>, ghost n: nat)
    returns (info: map<nat, Info>, vvNew: seq<set<nat>>)
    requires Reading(lists, 0, 0, info0, vvNew0, info0, vvNew0)
    ensures Reading(lists, |lists|, 0, info0, vvNew0, info, vvNew)
    ensures InOrder(lists, n, 0, 0, info0, info0, vvNew0) ==> vvNew == Sets(lists) && Counted(info0, info, vvNew)
  {
    info, vvNew := info0, vvNew0;
    ghost var good := InOrder(lists, n, 0, 0, info0, info0, vvNew0);
    for b := 0 to |lists|
      invariant Reading(lists, b, 0, info0, vvNew0, info, vvNew)
      invariant good ==> InOrder(lists, n, b, 0, info0, info, vvNew)
    {
      info, vvNew := LoadBucket(lists, b, info, vvNew, n, info0, vvNew0);
      NextPart(lists, b, info0, info, vvNew);
      if good {
        NextList(lists, b, vvNew);
      }
    }
  }

  method LoadBucket(lists: seq<seq<nat>>, b: nat, info0: map<nat, Info>, vvNew0: seq<set<nat>>, ghost n: nat,
                    ghost base: map<nat, Info>, ghost start: seq<set<nat>>)
    returns (info: map<nat, Info>, vvNew: seq<set<nat>>)
    requires b < |lists| && Reading(lists, b, 0, base, start, info0, vvNew0)
    ensures Reading(lists, b, |lists[b]|, base, start, info, vvNew)
    ensures InOrder(lists, n, b, 0, base, info0, vvNew0) ==> InOrder(lists, n, b, |lists[b]|, base, info, vvNew)
  {
    info, vvNew := info0, vvNew0;
    ghost var good := InOrder(lists, n, b, 0, base, info0, vvNew0);
    for k := 0 to |lists[b]|
      invariant Reading(lists, b, k, base, start, info, vvNew)
      invariant good ==> InOrder(lists, n, b, k, base, info, vvNew)
    {
      if good {
        InOrderStep(lists, n, b, k, base, info, vvNew, lists[b][k]);
      }
      ReadingStep(lists, b, k, base, start, info, vvNew, lists[b][k]);
      info, vvNew := ReadReference(info, vvNew, b, lists[b][k], |lists| == NEW_BUCKET_COUNT);
    }
  }

  // ----- what is written is read back -----

  /**
   Two managers are the same up to the names of entries: entry n of the second
   is entry order[n] of the first. Only the last try and the position in
   vRandom may differ, and the order within tried buckets.
   */
  ghost predicate Isomorphic(order: seq<nat>, info: map<nat, Info>, news: seq<set<nat>>, tried: seq<seq<nat>>,
                             info': map<nat, Info>, news': seq<set<nat>>, tried': seq<seq<nat>>) {
    && ListOf(order, info.Keys)
    && NewSame(order, info, news, info', news')
    && |tried'| == |tried|
    && (forall b :: 0 <= b < |tried| ==> SameMembers(order, Elements(tried[b]), Elements(tried'[b])))
  }

  ghost predicate SameMembers(order: seq<nat>, bucket: set<nat>, bucket': set<nat>) {
    forall n: nat :: n in bucket' <==> n < |order| && order[n] in bucket
  }

  lemma {:induction false} SameOccurrences(order: seq<nat>, news: seq<set<nat>>, news': seq<set<nat>>, n: nat)
    requires |news'| == |news| && forall b :: 0 <= b < |news| ==> SameMembers(order, news[b], news'[b])
    ensures Occurrences(news', n) == if n < |order| then Occurrences(news, order[n]) else 0
    decreases |news|
  {
    if news != [] {
      var k := |news| - 1;
      assert SameMembers(order, news[k], news'[k]);
      SameOccurrences(order, news[..k], news'[..k], n);
    }
  }

  lemma BucketsSame(d: Disk, info: map<nat, Info>, news: seq<set<nat>>, newOrder: seq<nat>, triedOrder: seq<nat>)
    requires Describes(d, info, news, newOrder, triedOrder)
    ensures forall b :: 0 <= b < NEW_BUCKET_COUNT ==> SameMembers(newOrder, news[b], Sets(d.buckets)[b])
  {
    forall b | 0 <= b < NEW_BUCKET_COUNT ensures SameMembers(newOrder, news[b], Sets(d.buckets)[b]) {
      assert BucketSavedAs(news[b], newOrder, d.buckets[b]);
    }
  }

  lemma WrittenBucketsGood(d: Disk, info: map<nat, Info>, news: seq<set<nat>>, newOrder: seq<nat>, triedOrder: seq<nat>)
    requires Describes(d, info, news, newOrder, triedOrder) && RefsOk(info, news, -1)
    ensures BucketsGood(d.buckets, |d.news|)
  {
    BucketsSame(d, info, news, newOrder, triedOrder);
    forall x: nat ensures Occurrences(Sets(d.buckets), x) <= NEW_BUCKETS_PER_ADDRESS {
      SameOccurrences(newOrder, news, Sets(d.buckets), x);
      if x < |newOrder| {
        assert newOrder[x] in Elements(newOrder);
        assert RefOk(info[newOrder[x]], Occurrences(news, newOrder[x]));
      }
    }
    forall b, k | 0 <= b < |d.buckets| && 0 <= k < |d.buckets[b]| ensures d.buckets[b][k] < |d.news| {
      assert BucketSavedAs(news[b], newOrder, d.buckets[b]);
    }
    forall b, j, k | 0 <= b < |d.buckets| && 0 <= j < k < |d.buckets[b]| ensures d.buckets[b][j] != d.buckets[b][k] {
      assert BucketSavedAs(news[b], newOrder, d.buckets[b]);
    }
  }

  /** The ids that go into a tried bucket. */
  ghost function IdsOfBucket(w: Network, key: Key, order: seq<nat>, trieds: seq<Saved>, b: nat): set<nat>
    requires |order| == |trieds|
    decreases |order|
  {
    if order == [] then {}
    else
      var k := |order| - 1;
      IdsOfBucket(w, key, order[..k], trieds[..k], b) + (if SavedBucket(w, key, trieds[k]) == b then {order[k]} else {})
  }

  lemma {:induction false} IdsOfBucketAt(w: Network, key: Key, order: seq<nat>, trieds: seq<Saved>, b: nat, x: nat)
    returns (n: nat)
    requires |order| == |trieds| && x in IdsOfBucket(w, key, order, trieds, b)
    ensures n < |order| && order[n] == x && SavedBucket(w, key, trieds[n]) == b
    decreases |order|
  {
    var k := |order| - 1;
    if x in IdsOfBucket(w, key, order[..k], trieds[..k], b) {
      n := IdsOfBucketAt(w, key, order[..k], trieds[..k], b, x);
    } else {
      n := k;
    }
  }

  lemma {:induction false} LoadIsSize(w: Network, key: Key, order: seq<nat>, trieds: seq<Saved>, b: nat)
    requires |order| == |trieds| && forall i, j :: 0 <= i < j < |order| ==> order[i] != order[j]
    ensures BucketLoad(w, key, trieds, b) == |IdsOfBucket(w, key, order, trieds, b)|
    decreases |order|
  {
    if order != [] {
      var k := |order| - 1;
      LoadIsSize(w, key, order[..k], trieds[..k], b);
      if order[k] in IdsOfBucket(w, key, order[..k], trieds[..k], b) {
        var n := IdsOfBucketAt(w, key, order[..k], trieds[..k], b, order[k]);
      }
    }
  }

  /** No tried entry of a consistent manager is lost. */
  lemma WrittenFits(w: Network, d: Disk, info: map<nat, Info>, news: seq<set<nat>>, tried: seq<seq<nat>>,
                    newOrder: seq<nat>, triedOrder: seq<nat>)
    requires Describes(d, info, news, newOrder, triedOrder) && TriedOk(w, d.nKey, info, tried)
    ensures Fits(w, d.nKey, d.trieds)
  {
    forall b | 0 <= b < TRIED_BUCKET_COUNT ensures BucketLoad(w, d.nKey, d.trieds, b) <= TRIED_BUCKET_SIZE {
      LoadIsSize(w, d.nKey, triedOrder, d.trieds, b);
      var ids := IdsOfBucket(w, d.nKey, triedOrder, d.trieds, b);
      forall x | x in ids ensures x in Elements(tried[b]) {
        var n := IdsOfBucketAt(w, d.nKey, triedOrder, d.trieds, b, x);
        assert x in Elements(triedOrder);
        assert TriedBucket(w, d.nKey, info[x]) == b;
      }
      SubsetSize(ids, Elements(tried[b]));
      ElementsSize(tried[b]);
      assert TriedBucketOk(w, d.nKey, info, tried[b], b);
    }
  }

  /** The ids in the order written are all ids, once each. */
  lemma OrderIsComplete(info: map<nat, Info>, newOrder: seq<nat>, triedOrder: seq<nat>)
    requires ListOf(newOrder, NewIds(info)) && ListOf(triedOrder, TriedIds(info))
    ensures ListOf(newOrder + triedOrder, info.Keys)
    ensures forall n :: 0 <= n < |newOrder| ==> newOrder[n] in info && !info[newOrder[n]].inTried
    ensures forall n :: 0 <= n < |triedOrder| ==> triedOrder[n] in info && info[triedOrder[n]].inTried
  {
    var order := newOrder + triedOrder;
    forall n | 0 <= n < |newOrder| ensures newOrder[n] in NewIds(info) {
      assert newOrder[n] in Elements(newOrder);
    }
    forall n | 0 <= n < |triedOrder| ensures triedOrder[n] in TriedIds(info) {
      assert triedOrder[n] in Elements(triedOrder);
    }
    forall x ensures x in order <==> x in Elements(newOrder) || x in Elements(triedOrder) {
    }
    assert Elements(order) == info.Keys;
  }

  /** A loaded entry before the buckets are read. */
  lemma EntrySame(d: Disk, info: map<nat, Info>, news: seq<set<nat>>, newOrder: seq<nat>, triedOrder: seq<nat>,
                  base: map<nat, Info>, n: nat)
    requires Describes(d, info, news, newOrder, triedOrder)
    requires EntriesLoaded(d.news + d.trieds, |d.news|, base) && n < |newOrder + triedOrder|
    ensures n in base && (newOrder + triedOrder)[n] in info
    ensures base[n] == info[(newOrder + triedOrder)[n]].(lastTry := 0, randomPos := n, refCount := base[n].refCount)
  {
    OrderIsComplete(info, newOrder, triedOrder);
    assert base[n] == Load((d.news + d.trieds)[n], n, n >= |d.news|).(refCount := base[n].refCount);
  }

  /** The place of an entry names the same new buckets as the entry. */
  lemma WholeOrderMembers(news: seq<set<nat>>, news': seq<set<nat>>, newOrder: seq<nat>, triedOrder: seq<nat>,
                          info: map<nat, Info>)
    requires NewBucketsOk(info, news) && RefsOk(info, news, -1)
    requires ListOf(newOrder, NewIds(info)) && ListOf(triedOrder, TriedIds(info))
    requires |news'| == |news| && forall b :: 0 <= b < |news| ==> SameMembers(newOrder, news[b], news'[b])
    ensures forall b :: 0 <= b < |news| ==> SameMembers(newOrder + triedOrder, news[b], news'[b])
  {
    NewHaveReferences(info, news);
    OrderIsComplete(info, newOrder, triedOrder);
    forall b, n: nat | 0 <= b < |news|
      ensures n in news'[b] <==> n < |newOrder + triedOrder| && (newOrder + triedOrder)[n] in news[b]
    {
      assert SameMembers(newOrder, news[b], news'[b]);
      if |newOrder| <= n < |newOrder + triedOrder| {
        assert (newOrder + triedOrder)[n] == triedOrder[n - |newOrder|];
      }
    }
  }

  /** The entries are written in an order, the tried ones from nNew on. */
  ghost predicate WrittenIn(order: seq<nat>, loaded: seq<Saved>, nNew: nat, info: map<nat, Info>) {
    && |order| == |loaded|
    && forall n {:trigger order[n]} {:trigger loaded[n]} :: 0 <= n < |order| ==>
         order[n] in info && loaded[n] == Save(info[order[n]]) && (n >= nNew <==> info[order[n]].inTried)
  }

  lemma TriedMembers(w: Network, key: Key, info: map<nat, Info>, tried: seq<seq<nat>>, order: seq<nat>,
                     loaded: seq<Saved>, nNew: nat, info': map<nat, Info>, tried': seq<seq<nat>>)
    requires TriedOk(w, key, info, tried) && TriedLoaded(w, key, loaded, nNew, tried')
    requires WrittenIn(order, loaded, nNew, info)
    ensures forall b :: 0 <= b < TRIED_BUCKET_COUNT ==> SameMembers(order, Elements(tried[b]), Elements(tried'[b]))
  {
    forall b, n: nat | 0 <= b < TRIED_BUCKET_COUNT
      ensures n in Elements(tried'[b]) <==> n < |order| && order[n] in Elements(tried[b])
    {
      assert TriedBucketLoaded(w, key, loaded, nNew, tried'[b], b);
      assert TriedBucketOk(w, key, info, tried[b], b);
      if n < |order| {
        assert TriedBucket(w, key, info[order[n]]) == SavedBucket(w, key, loaded[n]);
        if n in tried'[b] {
          assert order[n] in tried[TriedBucket(w, key, info[order[n]])];
        }
        if order[n] in tried[b] {
          assert n in tried'[SavedBucket(w, key, loaded[n])];
        }
      }
    }
  }

  lemma {:induction false} NotLarger(order: seq<nat>, bucket: set<nat>, bucket': set<nat>)
    requires forall i, j :: 0 <= i < j < |order| ==> order[i] != order[j]
    requires forall n :: n in bucket' ==> n < |order| && order[n] in bucket
    ensures |bucket'| <= |bucket|
    decreases |bucket'|
  {
    if bucket' != {} {
      var n :| n in bucket';
      NotLarger(order, bucket - {order[n]}, bucket' - {n});
    }
  }

  lemma {:induction false} EmptyOccurrences(news: seq<set<nat>>, x: nat)
    requires forall b :: 0 <= b < |news| ==> news[b] == {}
    ensures Occurrences(news, x) == 0
  {
    OccurrencesPositive(news, x);
  }

  ghost function Below(n: nat): (r: set<nat>)
    ensures forall x: nat :: x in r <==> x < n
    ensures |r| == n
  {
    if n == 0 then {} else Below(n - 1) + {n - 1}
  }

  lemma LoadedCounts(loaded: seq<Saved>, nNew: nat, info: map<nat, Info>)
    requires EntriesLoaded(loaded, nNew, info) && nNew <= |loaded|
    ensures CountsOk(info, nNew, |loaded| - nNew)
  {
    assert NewIds(info) == Below(nNew);
    assert TriedIds(info) == Below(|loaded|) - Below(nNew);
    assert Below(nNew) <= Below(|loaded|);
  }

  lemma LoadedTriedOk(w: Network, key: Key, loaded: seq<Saved>, nNew: nat, info: map<nat, Info>, tried: seq<seq<nat>>)
    requires EntriesLoaded(loaded, nNew, info) && TriedLoaded(w, key, loaded, nNew, tried)
    ensures TriedOk(w, key, info, tried)
  {
    forall id | id in info
      ensures TriedBucket(w, key, info[id]) == SavedBucket(w, key, loaded[id]) && (info[id].inTried <==> id >= nNew)
    {
    }
    forall b | 0 <= b < TRIED_BUCKET_COUNT ensures TriedBucketOk(w, key, info, tried[b], b) {
      assert TriedBucketLoaded(w, key, loaded, nNew, tried[b], b);
    }
  }

  lemma LoadedRandomAndIds(loaded: seq<Saved>, nNew: nat, info: map<nat, Info>, random: seq<nat>)
    requires EntriesLoaded(loaded, nNew, info) && RandomLoaded(|loaded|, random)
    ensures RandomOk(info, random) && IdsOk(info, |loaded|)
  {
    forall id | id in info ensures info[id].randomPos == id {
    }
  }

  lemma LoadedAddrOk(loaded: seq<Saved>, nNew: nat, info': map<nat, Info>, addr': map<NetAddr, nat>, order: seq<nat>,
                     info: map<nat, Info>, addr: map<NetAddr, nat>)
    requires EntriesLoaded(loaded, nNew, info') && AddrLoaded(loaded, addr') && AddrOk(info, addr)
    requires ListOf(order, info.Keys) && WrittenIn(order, loaded, nNew, info)
    ensures AddrOk(info', addr')
  {
    forall n, m | 0 <= n < |order| && 0 <= m < |order| && loaded[n].addr.service.net == loaded[m].addr.service.net
      ensures n == m
    {
      assert addr[info[order[n]].Net()] == order[n] && addr[info[order[m]].Net()] == order[m];
    }
    forall id | id in info' ensures info'[id].Net() in addr' && addr'[info'[id].Net()] == id {
      assert info'[id].Net() == loaded[id].addr.service.net;
    }
    forall a | a in addr' ensures addr'[a] in info' && info'[addr'[a]].Net() == a {
      assert loaded[addr'[a]].addr.service.net == a;
    }
  }

  /** All entries as written, in order. */
  lemma AllSaved(d: Disk, info: map<nat, Info>, news: seq<set<nat>>, newOrder: seq<nat>, triedOrder: seq<nat>)
    requires Describes(d, info, news, newOrder, triedOrder)
    ensures WrittenIn(newOrder + triedOrder, d.news + d.trieds, |d.news|, info)
  {
    OrderIsComplete(info, newOrder, triedOrder);
    assert WrittenIn(newOrder, d.news, |d.news|, info) && WrittenIn(triedOrder, d.trieds, 0, info);
    WrittenJoined(newOrder, triedOrder, d.news, d.trieds, info);
  }

  lemma WrittenJoined(a: seq<nat>, b: seq<nat>, x: seq<Saved>, y: seq<Saved>, info: map<nat, Info>)
    requires WrittenIn(a, x, |x|, info) && WrittenIn(b, y, 0, info)
    ensures WrittenIn(a + b, x + y, |x|, info)
  {
    forall n | 0 <= n < |a + b|
      ensures (a + b)[n] in info && (x + y)[n] == Save(info[(a + b)[n]]) && (n >= |x| <==> info[(a + b)[n]].inTried)
    {
      if n < |a| {
        assert (a + b)[n] == a[n] && (x + y)[n] == x[n];
      } else {
        assert (a + b)[n] == b[n - |a|] && (x + y)[n] == y[n - |a|];
      }
    }
  }

  /** Reading what has been written gives the same entries and new buckets. */
  lemma LoadedNewOk(order: seq<nat>, info: map<nat, Info>, news: seq<set<nat>>, info': map<nat, Info>,
                    news': seq<set<nat>>)
    requires ListOf(order, info.Keys) && NewBucketsOk(info, news) && RefsOk(info, news, -1)
    requires |news'| == |news| && forall b :: 0 <= b < |news| ==> SameMembers(order, news[b], news'[b])
    requires forall n: nat :: n in info' <==> n < |order|
    requires forall n :: 0 <= n < |order| ==> order[n] in info && info'[n].inTried == info[order[n]].inTried
    requires forall n :: 0 <= n < |order| ==> info'[n].refCount == Occurrences(news', n)
    ensures NewBucketsOk(info', news') && RefsOk(info', news', -1)
    ensures forall n :: 0 <= n < |order| ==> info'[n].refCount == info[order[n]].refCount
  {
    forall n: nat | n < |order|
      ensures RefOk(info'[n], Occurrences(news', n)) && info'[n].refCount == info[order[n]].refCount
    {
      SameOccurrences(order, news, news', n);
      assert RefOk(info[order[n]], Occurrences(news, order[n]));
    }
    forall b | 0 <= b < NEW_BUCKET_COUNT ensures |news'[b]| <= NEW_BUCKET_SIZE && news'[b] <= info'.Keys {
      assert SameMembers(order, news[b], news'[b]);
      NotLarger(order, news[b], news'[b]);
    }
  }

  /** New buckets are empty and reference counts zero before the buckets are read. */
  lemma NothingRead(lists: seq<seq<nat>>, info: map<nat, Info>, news: seq<set<nat>>)
    requires |lists| == |news| == NEW_BUCKET_COUNT && (forall b :: 0 <= b < |news| ==> news[b] == {})
    requires forall id :: id in info ==> info[id].refCount == 0
    ensures Partly(lists, 0, 0, news) && Counted(info, info, news)
  {
    forall x | x in info ensures info[x] == info[x].(refCount := Occurrences(news, x)) {
      EmptyOccurrences(news, x);
    }
  }

  /**
   The entries and new buckets read from any stream.  Entries are those loaded,
   and default ones for ids that only the buckets name.  With the number of
   buckets unchanged, the buckets come from the lists; else from the sources.
   */
  ghost predicate TablesRead(w: Network, d: Disk, loaded: seq<Saved>, info: map<nat, Info>, vvNew: seq<set<nat>>) {
    var lists := d.buckets;
    && (forall id: nat :: id in info <==> id < |loaded| || Named(lists, |lists|, 0, id))
    && (forall id {:trigger info[id]} :: id in info ==>
          info[id] == (if id < |loaded| then Load(loaded[id], id, id >= |d.news|) else DEFAULT_INFO)
                      .(refCount := info[id].refCount))
    && if |lists| == NEW_BUCKET_COUNT then Referred(lists, |lists|, 0, info, vvNew)
       else
         && Rebuilt(w, d.nKey, d.news, vvNew)
         && forall id :: id in info ==> info[id].refCount == if id < |d.news| then 1 else 0
  }

  /** What is read from any stream, damaged or not. */
  method Read(am: AddrManager, d: Disk) returns (nLost: nat, ghost loaded: seq<Saved>)
    modifies am
    ensures am.nKey == d.nKey && am.nNew == |d.news| && am.nTried == |d.trieds| - nLost && am.nIdCount == |loaded|
    ensures |d.news| <= |loaded| == |d.news| + |d.trieds| - nLost
    ensures RandomLoaded(|loaded|, am.vRandom) && AddrLoaded(loaded, am.mapAddr)
    ensures TriedLoaded(am.network, d.nKey, loaded, |d.news|, am.vvTried)
    ensures TablesRead(am.network, d, loaded, am.mapInfo, am.vvNew)
    ensures Fits(am.network, d.nKey, d.trieds) ==> nLost == 0 && loaded == d.news + d.trieds
    ensures BucketsGood(d.buckets, |d.news|) ==>
              && EntriesLoaded(loaded, |d.news|, am.mapInfo) && am.vvNew == Sets(d.buckets)
              && RefsCounted(|loaded|, am.mapInfo, am.vvNew)
  {
    var info, addr, random, vvNew, vvTried;
    info, addr, random, vvNew, vvTried, nLost, loaded := ReadTables(am.network, d);
    am.nKey, am.nNew, am.nTried, am.nIdCount := d.nKey, |d.news|, |d.trieds| - nLost, |random|;
    am.mapInfo, am.mapAddr, am.vRandom, am.vvTried, am.vvNew := info, addr, random, vvTried, vvNew;
  }

  /** Before the buckets are read. */
  lemma ReadingStarts(w: Network, d: Disk, base: map<nat, Info>, vvNew: seq<set<nat>>)
    requires |vvNew| == NEW_BUCKET_COUNT
    requires |d.buckets| == NEW_BUCKET_COUNT ==>
               (forall b :: 0 <= b < |vvNew| ==> vvNew[b] == {}) && forall id :: id in base ==> base[id].refCount == 0
    ensures Reading(d.buckets, 0, 0, base, vvNew, base, vvNew)
  {
    var lists := d.buckets;
    assert forall i :: 0 <= i < |lists| ==> ReadPart(lists, 0, 0, i) == [];
    if |lists| == NEW_BUCKET_COUNT {
      forall x ensures Occurrences(vvNew, x) == 0 {
        EmptyOccurrences(vvNew, x);
      }
    }
  }

  lemma ReadingEnds(w: Network, d: Disk, loaded: seq<Saved>, base: map<nat, Info>, vvNew0: seq<set<nat>>,
                    info: map<nat, Info>, vvNew: seq<set<nat>>)
    requires EntriesLoaded(loaded, |d.news|, base) && |d.news| <= |loaded|
    requires Reading(d.buckets, |d.buckets|, 0, base, vvNew0, info, vvNew)
    requires |d.buckets| != NEW_BUCKET_COUNT ==> Rebuilt(w, d.nKey, d.news, vvNew0)
    requires |d.buckets| != NEW_BUCKET_COUNT ==>
               forall id :: id in base ==> base[id].refCount == if id < |d.news| then 1 else 0
    ensures TablesRead(w, d, loaded, info, vvNew)
  {
    forall id | id in info
      ensures info[id] == (if id < |loaded| then Load(loaded[id], id, id >= |d.news|) else DEFAULT_INFO)
                          .(refCount := info[id].refCount)
    {
      if id < |loaded| {
        assert base[id] == Load(loaded[id], id, id >= |d.news|).(refCount := base[id].refCount);
      }
    }
  }

  method ReadTables(w: Network, d: Disk)
    returns (info: map<nat, Info>, addr: map<NetAddr, nat>, random: seq<nat>, vvNew: seq<set<nat>>,
             vvTried: seq<seq<nat>>, nLost: nat, ghost loaded: seq<Saved>)
    ensures |d.news| <= |loaded| == |d.news| + |d.trieds| - nLost
    ensures RandomLoaded(|loaded|, random) && AddrLoaded(loaded, addr)
    ensures TriedLoaded(w, d.nKey, loaded, |d.news|, vvTried)
    ensures TablesRead(w, d, loaded, info, vvNew)
    ensures Fits(w, d.nKey, d.trieds) ==> nLost == 0 && loaded == d.news + d.trieds
    ensures BucketsGood(d.buckets, |d.news|) ==>
              EntriesLoaded(loaded, |d.news|, info) && vvNew == Sets(d.buckets) && RefsCounted(|loaded|, info, vvNew)
  {
    info, addr, random, vvNew := LoadNew(w, d);
    ghost var vvNew0 := vvNew;
    info, addr, random, vvTried, nLost, loaded := LoadTried(w, d, info, addr, random);
    ghost var base := info;
    if |d.buckets| == NEW_BUCKET_COUNT {
      NothingRead(d.buckets, info, vvNew);
    }
    ReadingStarts(w, d, base, vvNew);
    info, vvNew := LoadBuckets(d.buckets, info, vvNew, |d.news|);
    ReadingEnds(w, d, loaded, base, vvNew0, info, vvNew);
    if BucketsGood(d.buckets, |d.news|) {
      CountedEntries(loaded, |d.news|, base, info, vvNew);
    }
  }

  /** The reference counts of the first n entries are right. */
  ghost predicate RefsCounted(n: nat, info: map<nat, Info>, news: seq<set<nat>>) {
    forall id: nat :: id < n ==> id in info && info[id].refCount == Occurrences(news, id)
  }

  lemma CountedEntries(loaded: seq<Saved>, nNew: nat, base: map<nat, Info>, info: map<nat, Info>, news: seq<set<nat>>)
    requires EntriesLoaded(loaded, nNew, base) && Counted(base, info, news)
    ensures EntriesLoaded(loaded, nNew, info)
    ensures RefsCounted(|loaded|, info, news)
  {
    forall id: nat | id < |loaded|
      ensures info[id] == Load(loaded[id], id, id >= nNew).(refCount := info[id].refCount)
    {
      assert base[id] == Load(loaded[id], id, id >= nNew).(refCount := base[id].refCount);
    }
  }

  /** The read-back tables, from their parts. */
  lemma ReadBack(w: Network, d: Disk, info: map<nat, Info>, addr: map<NetAddr, nat>, tried: seq<seq<nat>>,
                 news: seq<set<nat>>, newOrder: seq<nat>, triedOrder: seq<nat>, info': map<nat, Info>,
                 addr': map<NetAddr, nat>, random': seq<nat>, tried': seq<seq<nat>>, news': seq<set<nat>>)
    requires AddrOk(info, addr) && TriedOk(w, d.nKey, info, tried) && NewBucketsOk(info, news) && RefsOk(info, news, -1)
    requires Describes(d, info, news, newOrder, triedOrder)
    requires EntriesLoaded(d.news + d.trieds, |d.news|, info') && RandomLoaded(|d.news + d.trieds|, random')
    requires AddrLoaded(d.news + d.trieds, addr') && TriedLoaded(w, d.nKey, d.news + d.trieds, |d.news|, tried')
    requires news' == Sets(d.buckets) && RefsCounted(|d.news + d.trieds|, info', news')
    ensures IdsOk(info', |d.news + d.trieds|) && RandomOk(info', random') && AddrOk(info', addr')
    ensures TriedOk(w, d.nKey, info', tried') && NewBucketsOk(info', news') && RefsOk(info', news', -1)
    ensures CountsOk(info', |d.news|, |d.trieds|)
    ensures Isomorphic(newOrder + triedOrder, info, news, tried, info', news', tried')
  {
    var order, loaded := newOrder + triedOrder, d.news + d.trieds;
    assert NewBucketsOk(info', news') && RefsOk(info', news', -1) && NewSame(order, info, news, info', news') by {
      NewReadBack(d, info, news, newOrder, triedOrder, info', news');
    }
    assert CountsOk(info', |d.news|, |d.trieds|) by {
      LoadedCounts(loaded, |d.news|, info');
    }
    assert TriedOk(w, d.nKey, info', tried') by {
      LoadedTriedOk(w, d.nKey, loaded, |d.news|, info', tried');
    }
    LoadedRandomAndIds(loaded, |d.news|, info', random');
    assert ListOf(order, info.Keys) by {
      OrderIsComplete(info, newOrder, triedOrder);
    }
    AllSaved(d, info, news, newOrder, triedOrder);
    assert AddrOk(info', addr') by {
      LoadedAddrOk(loaded, |d.news|, info', addr', order, info, addr);
    }
    assert forall b :: 0 <= b < TRIED_BUCKET_COUNT ==> SameMembers(order, Elements(tried[b]), Elements(tried'[b])) by {
      TriedMembers(w, d.nKey, info, tried, order, loaded, |d.news|, info', tried');
    }
  }

  ghost predicate NewSame(order: seq<nat>, info: map<nat, Info>, news: seq<set<nat>>, info': map<nat, Info>,
                          news': seq<set<nat>>) {
    && (forall n: nat :: n in info' <==> n < |order|)
    && (forall n {:trigger order[n]} :: 0 <= n < |order| ==>
          order[n] in info && info'[n] == info[order[n]].(lastTry := 0, randomPos := info'[n].randomPos))
    && |news'| == |news| && (forall b :: 0 <= b < |news| ==> SameMembers(order, news[b], news'[b]))
  }

  lemma NewReadBack(d: Disk, info: map<nat, Info>, news: seq<set<nat>>, newOrder: seq<nat>, triedOrder: seq<nat>,
                    info': map<nat, Info>, news': seq<set<nat>>)
    requires NewBucketsOk(info, news) && RefsOk(info, news, -1) && Describes(d, info, news, newOrder, triedOrder)
    requires EntriesLoaded(d.news + d.trieds, |d.news|, info')
    requires news' == Sets(d.buckets) && RefsCounted(|d.news + d.trieds|, info', news')
    ensures NewBucketsOk(info', news') && RefsOk(info', news', -1)
    ensures NewSame(newOrder + triedOrder, info, news, info', news')
  {
    var order := newOrder + triedOrder;
    OrderIsComplete(info, newOrder, triedOrder);
    BucketsSame(d, info, news, newOrder, triedOrder);
    WholeOrderMembers(news, news', newOrder, triedOrder, info);
    forall n: nat | n < |order|
      ensures order[n] in info
              && info'[n] == info[order[n]].(lastTry := 0, randomPos := n, refCount := info'[n].refCount)
    {
      EntrySame(d, info, news, newOrder, triedOrder, info', n);
    }
    LoadedNewOk(order, info, news, info', news');
  }

  lemma WrittenIsReadable(am: AddrManager, d: Disk)
    requires am.Consistent() && d.nKey == am.nKey
    requires Describes(d, am.mapInfo, am.vvNew, Ascending(NewIds(am.mapInfo)), Ascending(TriedIds(am.mapInfo)))
    ensures Fits(am.network, d.nKey, d.trieds) && BucketsGood(d.buckets, |d.news|)
    ensures |d.news| == am.nNew && |d.trieds| == am.nTried
  {
    var newOrder, triedOrder := Ascending(NewIds(am.mapInfo)), Ascending(TriedIds(am.mapInfo));
    WrittenFits(am.network, d, am.mapInfo, am.vvNew, am.vvTried, newOrder, triedOrder);
    WrittenBucketsGood(d, am.mapInfo, am.vvNew, newOrder, triedOrder);
    ListSize(newOrder, NewIds(am.mapInfo));
    ListSize(triedOrder, TriedIds(am.mapInfo));
  }

  /**
   Writing a consistent manager and reading it into another one loses no
   entry, and gives a consistent manager that is the same up to names.
   */
  method SaveAndLoad(am: AddrManager, am': AddrManager) returns (nLost: nat, ghost order: seq<nat>)
    requires am.Consistent() && am' != am && am'.network == am.network
    modifies am'
    ensures nLost == 0 && am'.Consistent()
    ensures am'.nKey == am.nKey && am'.nNew == am.nNew && am'.nTried == am.nTried
    ensures Isomorphic(order, am.mapInfo, am.vvNew, am.vvTried, am'.mapInfo, am'.vvNew, am'.vvTried)
  {
    var d := Write(am);
    ghost var newOrder, triedOrder := Ascending(NewIds(am.mapInfo)), Ascending(TriedIds(am.mapInfo));
    order := newOrder + triedOrder;
    WrittenIsReadable(am, d);
    ghost var loaded;
    nLost, loaded := Read(am', d);
    ReadBack(am.network, d, am.mapInfo, am.mapAddr, am.vvTried, am.vvNew, newOrder, triedOrder,
             am'.mapInfo, am'.mapAddr, am'.vRandom, am'.vvTried, am'.vvNew);
  }
}
