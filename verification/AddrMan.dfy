/**
 The address manager (addrman.h and addrman.cpp: CAddrInfo, CAddrMan).

 Five indexes describe one set of entries. What Check_ looks for is the
 invariant Consistent; every operation of class AddrManager keeps it.
 Bucket hashes are functions of the key, random numbers are parameters or
 free choices.
 */
module AddrMan {
  import opened Powers

  const TRIED_BUCKET_COUNT: nat := 64
  const TRIED_BUCKET_SIZE: nat := 64
  const NEW_BUCKET_COUNT: nat := 256
  const NEW_BUCKET_SIZE: nat := 64
  const NEW_BUCKETS_PER_ADDRESS: nat := 4
  const TRIED_ENTRIES_INSPECT_ON_EVICT: nat := 4
  const HORIZON_DAYS: int := 30
  const RETRIES: int := 3
  const MAX_FAILURES: int := 10
  const MIN_FAIL_DAYS: int := 7
  const GETADDR_MAX_PCT: nat := 23
  const GETADDR_MAX: nat := 2500

  type NetAddr = nat
  type Key = seq<nat>

  datatype Service = Service(net: NetAddr, port: nat)

  /** CAddress; nServices is the set of its bits, nTime an unsigned 32-bit number. */
  datatype Address = Address(service: Service, services: set<nat>, time: nat)

  datatype Info = Info(addr: Address, source: NetAddr, lastTry: int, lastSuccess: int, attempts: int,
                       refCount: int, inTried: bool, randomPos: int)
  {
    function Net(): NetAddr {
      addr.service.net
    }

    /** CAddrInfo::IsTerrible */
    predicate IsTerrible(now: int) {
      if lastTry != 0 && lastTry >= now - 60 then false
      else
        || addr.time > now + 10 * 60
        || addr.time == 0
        || now - addr.time > HORIZON_DAYS * 86400
        || (lastSuccess == 0 && attempts >= RETRIES)
        || (now - lastSuccess > MIN_FAIL_DAYS * 86400 && attempts >= MAX_FAILURES)
    }
  }

  /** The hashes that choose buckets, and the address ranges that are routable. */
  datatype Network = Network(triedHash: (Key, Service) -> nat, newHash: (Key, NetAddr, NetAddr) -> nat,
                             routable: NetAddr -> bool)

  function TriedBucket(w: Network, key: Key, e: Info): (b: nat)
    ensures b < TRIED_BUCKET_COUNT
  {
    w.triedHash(key, e.addr.service) % TRIED_BUCKET_COUNT
  }

  function NewBucket(w: Network, key: Key, e: Info, source: NetAddr): (b: nat)
    ensures b < NEW_BUCKET_COUNT
  {
    w.newHash(key, e.Net(), source) % NEW_BUCKET_COUNT
  }

  /** An int64 stored in the unsigned 32-bit nTime. */
  function U32(x: int): (r: nat) {
    x % 0x1_0000_0000
  }

  // ----- the invariant, index by index -----

  /** vRandom lists every id once, each at its nRandomPos. */
  ghost predicate RandomOk(info: map<nat, Info>, random: seq<nat>) {
    && (forall id {:trigger info[id].randomPos} :: id in info ==>
          0 <= info[id].randomPos < |random| && random[info[id].randomPos] == id)
    && (forall i :: 0 <= i < |random| ==> random[i] in info && info[random[i]].randomPos == i)
  }

  /** mapAddr is the inverse of mapInfo. */
  ghost predicate AddrOk(info: map<nat, Info>, addr: map<NetAddr, nat>) {
    && (forall id {:trigger info[id].Net()} :: id in info ==> info[id].Net() in addr && addr[info[id].Net()] == id)
    && (forall a :: a in addr ==> addr[a] in info && info[addr[a]].Net() == a)
  }

  ghost predicate TriedBucketOk(w: Network, key: Key, info: map<nat, Info>, bucket: seq<nat>, b: nat) {
    && |bucket| <= TRIED_BUCKET_SIZE
    && (forall i, j :: 0 <= i < j < |bucket| ==> bucket[i] != bucket[j])
    && (forall i :: 0 <= i < |bucket| ==>
          bucket[i] in info && info[bucket[i]].inTried && TriedBucket(w, key, info[bucket[i]]) == b)
  }

  /** A tried id is listed once, in its own bucket; nothing else is. */
  ghost predicate TriedOk(w: Network, key: Key, info: map<nat, Info>, tried: seq<seq<nat>>) {
    && |tried| == TRIED_BUCKET_COUNT
    && (forall b :: 0 <= b < TRIED_BUCKET_COUNT ==> TriedBucketOk(w, key, info, tried[b], b))
    && (forall id {:trigger TriedBucket(w, key, info[id])} :: id in info && info[id].inTried ==>
          id in tried[TriedBucket(w, key, info[id])])
  }

  /** How many of the new buckets hold an id. */
  ghost function Occurrences(news: seq<set<nat>>, id: nat): nat {
    if news == [] then 0
    else Occurrences(news[..|news| - 1], id) + (if id in news[|news| - 1] then 1 else 0)
  }

  ghost predicate NewBucketsOk(info: map<nat, Info>, news: seq<set<nat>>) {
    && |news| == NEW_BUCKET_COUNT
    && (forall b :: 0 <= b < NEW_BUCKET_COUNT ==> |news[b]| <= NEW_BUCKET_SIZE && news[b] <= info.Keys)
  }

  predicate RefOk(e: Info, n: nat) {
    if e.inTried then e.refCount == 0 && n == 0 else e.refCount == n && 1 <= n <= NEW_BUCKETS_PER_ADDRESS
  }

  /** The reference count of an entry is the number of new buckets holding it; loose is excepted. */
  ghost predicate RefsOk(info: map<nat, Info>, news: seq<set<nat>>, loose: int) {
    forall id {:trigger Occurrences(news, id)} :: id in info && id != loose ==> RefOk(info[id], Occurrences(news, id))
  }

  ghost function TriedIds(info: map<nat, Info>): set<nat> {
    set id | id in info && info[id].inTried
  }

  ghost function NewIds(info: map<nat, Info>): set<nat> {
    set id | id in info && !info[id].inTried
  }

  ghost predicate CountsOk(info: map<nat, Info>, nNew: int, nTried: int) {
    nNew == |NewIds(info)| && nTried == |TriedIds(info)|
  }

  ghost predicate IdsOk(info: map<nat, Info>, idCount: nat) {
    forall id :: id in info ==> id < idCount
  }

  /** The conditions of Check_ on times. */
  ghost predicate TimesOk(info: map<nat, Info>) {
    forall id {:trigger info[id].lastTry} :: id in info ==>
      info[id].lastTry >= 0 && info[id].lastSuccess >= 0 && (info[id].inTried ==> info[id].lastSuccess != 0)
  }

  // ----- lemmas about single indexes -----

  lemma {:induction false} OccurrencesUpdate(news: seq<set<nat>>, b: nat, s: set<nat>, id: nat)
    requires b < |news|
    ensures Occurrences(news[b := s], id) ==
            Occurrences(news, id) - (if id in news[b] then 1 else 0) + (if id in s then 1 else 0)
    decreases |news|
  {
    var n := |news| - 1;
    if b == n {
      assert news[b := s][..n] == news[..n];
    } else {
      assert news[b := s][..n] == news[..n][b := s];
      OccurrencesUpdate(news[..n], b, s, id);
    }
  }

  lemma {:induction false} OccurrencesPositive(news: seq<set<nat>>, id: nat)
    ensures Occurrences(news, id) > 0 <==> exists b :: 0 <= b < |news| && id in news[b]
    decreases |news|
  {
    if news != [] {
      var n := |news| - 1;
      OccurrencesPositive(news[..n], id);
      assert forall b :: 0 <= b < n ==> news[..n][b] == news[b];
    }
  }

  /** Equal up to the position in vRandom. */
  predicate SameEntry(a: Info, b: Info) {
    a == b.(randomPos := a.randomPos)
  }

  /** The entries of some ids have lost one reference, or are gone if it was the last. */
  ghost predicate Lowered(was: map<nat, Info>, now: map<nat, Info>, victims: set<nat>) {
    forall x :: x in victims ==>
      && x in was
      && (x in now <==> was[x].refCount > 1)
      && (x in now ==> now[x] == was[x].(refCount := was[x].refCount - 1))
  }

  /** Outside some ids the entries are the same, up to positions in vRandom. */
  ghost predicate Agree(a: map<nat, Info>, b: map<nat, Info>, except: set<nat>) {
    && a.Keys - except == b.Keys - except
    && (forall id :: id in a && id in b && id !in except ==> SameEntry(a[id], b[id]))
  }

  /** Changes to entries that are not tried do not concern the tried buckets. */
  lemma TriedFrame(w: Network, key: Key, a: map<nat, Info>, b: map<nat, Info>, tried: seq<seq<nat>>, except: set<nat>)
    requires TriedOk(w, key, a, tried) && Agree(a, b, except)
    requires forall id :: id in except ==> (id in a ==> !a[id].inTried) && (id in b ==> !b[id].inTried)
    ensures TriedOk(w, key, b, tried) && TriedIds(b) == TriedIds(a)
  {
    forall id | id in a && a[id].inTried ensures id in b && SameEntry(a[id], b[id]) {
      assert id in a.Keys - except;
    }
    forall id | id in b && b[id].inTried ensures id in a && SameEntry(a[id], b[id]) {
      assert id in b.Keys - except;
    }
    forall k | 0 <= k < TRIED_BUCKET_COUNT ensures TriedBucketOk(w, key, b, tried[k], k) {
      assert TriedBucketOk(w, key, a, tried[k], k);
    }
    forall id | id in b && b[id].inTried ensures id in tried[TriedBucket(w, key, b[id])] {
      assert id in tried[TriedBucket(w, key, a[id])];
    }
  }

  /** Changes that keep addresses and positions concern neither mapAddr nor vRandom. */
  lemma Touched(info: map<nat, Info>, id: nat, e: Info, addr: map<NetAddr, nat>, random: seq<nat>, idCount: nat)
    requires IdsOk(info, idCount) && RandomOk(info, random) && AddrOk(info, addr)
    requires id in info && e.Net() == info[id].Net() && e.randomPos == info[id].randomPos
    ensures IdsOk(info[id := e], idCount) && RandomOk(info[id := e], random) && AddrOk(info[id := e], addr)
    ensures Agree(info, info[id := e], {id})
  {
  }

  lemma AgreeTransitive(a: map<nat, Info>, b: map<nat, Info>, c: map<nat, Info>, x: set<nat>, y: set<nat>)
    requires Agree(a, b, x) && Agree(b, c, y)
    ensures Agree(a, c, x + y)
  {
    forall id ensures id in a.Keys - (x + y) <==> id in c.Keys - (x + y) {
      assert id in a.Keys - x <==> id in b.Keys - x;
      assert id in b.Keys - y <==> id in c.Keys - y;
    }
    forall id | id in a && id in c && id !in x + y ensures SameEntry(a[id], c[id]) {
      assert id in a.Keys - x;
    }
  }

  lemma AgreeWiden(a: map<nat, Info>, b: map<nat, Info>, x: set<nat>, y: set<nat>)
    requires Agree(a, b, y)
    ensures Agree(a, b, x + y)
  {
    forall id ensures id in a.Keys - (x + y) <==> id in b.Keys - (x + y) {
      assert id in a.Keys - y <==> id in b.Keys - y;
    }
  }

  lemma AgreeThrough(was: map<nat, Info>, mid: map<nat, Info>, now: map<nat, Info>, id: nat, others: set<nat>)
    requires id in mid && mid == was[id := mid[id]] && Agree(mid, now, {id} + others)
    requires id !in others && Lowered(mid, now, others)
    ensures Agree(was, now, {id} + others) && Lowered(was, now, others)
  {
    forall x | x in others ensures x in was && was[x] == mid[x] {
      assert x in mid;
    }
    assert Agree(was, mid, {id});
    AgreeTransitive(was, mid, now, {id}, {id} + others);
    assert {id} + ({id} + others) == {id} + others;
  }

  lemma AgreeRemoved(was: map<nat, Info>, mid: map<nat, Info>, id: nat)
    requires mid.Keys == was.Keys && Agree(was, mid, {}) && id in was
    ensures Agree(was, mid - {id}, {id}) && (mid - {id}).Keys == was.Keys - {id} && mid[id].Net() == was[id].Net()
  {
    assert SameEntry(was[id], mid[id]);
  }

  /** One address more has been sampled. */
  lemma Sampled(info: map<nat, Info>, random: seq<nat>, now: map<nat, Info>, swapped: seq<nat>, vAddr: seq<Address>,
                n: nat, pos: nat)
    requires RandomOk(info, random) && now.Keys == info.Keys && Agree(info, now, {})
    requires n == |vAddr| <= pos < |random| && swapped == random[n := random[pos]][pos := random[n]]
    requires forall i :: 0 <= i < n ==> vAddr[i] == info[random[i]].addr
    ensures forall i :: 0 <= i < n + 1 ==> (vAddr + [now[swapped[n]].addr])[i] == now[swapped[i]].addr
  {
    forall i | 0 <= i < n ensures vAddr[i] == now[swapped[i]].addr {
      assert SameEntry(info[random[i]], now[random[i]]);
    }
  }

  lemma AddrRemoved(info: map<nat, Info>, now: map<nat, Info>, addr: map<NetAddr, nat>, id: nat)
    requires AddrOk(info, addr) && Agree(info, now, {id}) && id in info && id !in now
    ensures AddrOk(now, addr - {info[id].Net()})
  {
    var rest := addr - {info[id].Net()};
    forall x | x in now ensures now[x].Net() in rest && rest[now[x].Net()] == x {
      assert x in now.Keys - {id};
      assert now[x].Net() == info[x].Net();
    }
    forall a | a in rest ensures rest[a] in now && now[rest[a]].Net() == a {
      assert rest[a] in info.Keys - {id};
    }
  }

  lemma RandomPop(info: map<nat, Info>, random: seq<nat>, id: nat)
    requires RandomOk(info, random) && id in info && info[id].randomPos == |random| - 1
    ensures RandomOk(info - {id}, random[..|random| - 1])
  {
  }

  lemma RandomPush(info: map<nat, Info>, random: seq<nat>, id: nat, e: Info)
    requires RandomOk(info, random) && id !in info && e.randomPos == |random|
    ensures RandomOk(info[id := e], random + [id])
  {
  }

  /** One bucket loses an id, and its entry a reference, or everything. */
  lemma Released(info: map<nat, Info>, now: map<nat, Info>, news: seq<set<nat>>, b: nat, id: nat, loose: int)
    requires NewBucketsOk(info, news) && RefsOk(info, news, loose)
    requires b < NEW_BUCKET_COUNT && id in news[b] && id != loose && Agree(info, now, {id})
    requires info[id].refCount > 1 ==>
               id in now && now[id].refCount == info[id].refCount - 1 && now[id].inTried == info[id].inTried
    requires info[id].refCount == 1 ==> id !in now
    ensures NewBucketsOk(now, news[b := news[b] - {id}]) && RefsOk(now, news[b := news[b] - {id}], loose)
  {
    var after := news[b := news[b] - {id}];
    OccurrencesPositive(news, id);
    forall x ensures Occurrences(after, x) == Occurrences(news, x) - (if x == id then 1 else 0) {
      OccurrencesUpdate(news, b, news[b] - {id}, x);
    }
    forall x | x in now && x != loose ensures RefOk(now[x], Occurrences(after, x)) {
      if x != id {
        assert x in now.Keys - {id};
      }
    }
    forall k | 0 <= k < NEW_BUCKET_COUNT ensures |after[k]| <= NEW_BUCKET_SIZE && after[k] <= now.Keys {
      forall x | x in after[k] ensures x in now {
        if x == id {
          OccurrencesPositive(after, id);
        } else {
          assert x in info.Keys - {id};
        }
      }
    }
  }

  lemma CountRemoved(info: map<nat, Info>, now: map<nat, Info>, id: nat)
    requires id in info && !info[id].inTried && Agree(info, now, {id}) && id !in now
    ensures |NewIds(now)| == |NewIds(info)| - 1 && TriedIds(now) == TriedIds(info)
  {
    forall x ensures x in TriedIds(now) <==> x in TriedIds(info) {
      assert x in now.Keys - {id} <==> x in info.Keys - {id};
    }
    forall x ensures x in NewIds(now) <==> x in NewIds(info) - {id} {
      assert x in now.Keys - {id} <==> x in info.Keys - {id};
    }
    assert NewIds(now) == NewIds(info) - {id};
  }

  lemma CountKept(info: map<nat, Info>, now: map<nat, Info>, id: nat)
    requires Agree(info, now, {id}) && id in info && id in now && info[id].inTried == now[id].inTried
    ensures NewIds(now) == NewIds(info) && TriedIds(now) == TriedIds(info)
  {
    forall x
      ensures x in NewIds(now) <==> x in NewIds(info)
      ensures x in TriedIds(now) <==> x in TriedIds(info)
    {
      assert x in now.Keys - {id} <==> x in info.Keys - {id};
    }
  }

  // ----- sets in ascending order -----

  /** The position of an element in ascending order. */
  ghost function Rank(s: set<nat>, x: nat): nat {
    |set y | y in s && y < x|
  }

  ghost predicate Least(s: set<nat>, x: nat) {
    x in s && forall y :: y in s ==> x <= y
  }

  lemma {:induction false} HasLeast(s: set<nat>)
    requires s != {}
    ensures exists x :: Least(s, x)
    decreases |s|
  {
    var x :| x in s;
    var rest := s - {x};
    assert forall z :: z in s ==> z == x || z in rest;
    if rest == {} {
      assert Least(s, x);
    } else {
      HasLeast(rest);
      var y :| Least(rest, y);
      assert Least(s, if x <= y then x else y);
    }
  }

  /** The elements of rest come after the others in ascending order. */
  ghost predicate Suffix(s: set<nat>, rest: set<nat>) {
    rest <= s && forall x, y :: x in s - rest && y in rest ==> x < y
  }

  lemma LeastRank(s: set<nat>, rest: set<nat>, x: nat)
    requires Suffix(s, rest) && Least(rest, x)
    ensures Rank(s, x) == |s| - |rest| && Suffix(s, rest - {x}) && |rest - {x}| == |rest| - 1
  {
    assert (set y | y in s && y < x) == s - rest;
    assert |s - rest| == |s| - |rest|;
    forall a, b | a in s - (rest - {x}) && b in rest - {x} ensures a < b {
      assert a == x || a in s - rest;
    }
  }

  /** The entry that ShrinkNew drops from a bucket, for four random numbers. */
  ghost predicate IsVictim(info: map<nat, Info>, bucket: set<nat>, now: int, rnd: seq<nat>, x: nat)
    requires bucket <= info.Keys
  {
    && x in bucket
    && if exists y :: y in bucket && info[y].IsTerrible(now)
       then info[x].IsTerrible(now) && forall y :: y in bucket && info[y].IsTerrible(now) ==> x <= y
       else Picked(bucket, rnd, x) &&
            forall y :: y in bucket && Picked(bucket, rnd, y) ==> info[x].addr.time <= info[y].addr.time
  }

  /** Is an element at one of the randomly chosen positions? */
  ghost predicate Picked(bucket: set<nat>, rnd: seq<nat>, x: nat) {
    x in bucket && exists k :: 0 <= k < |rnd| && rnd[k] % |bucket| == Rank(bucket, x)
  }

  lemma {:induction false} AtRank(s: set<nat>, r: nat) returns (x: nat)
    requires r < |s|
    ensures x in s && Rank(s, x) == r
  {
    var rest := s;
    HasLeast(rest);
    x :| Least(rest, x);
    LeastRank(s, rest, x);
    while |s| - |rest| < r
      invariant Suffix(s, rest) && |s| - |rest| <= r && Least(rest, x) && Rank(s, x) == |s| - |rest|
      decreases |rest|
    {
      LeastRank(s, rest, x);
      rest := rest - {x};
      HasLeast(rest);
      x :| Least(rest, x);
      LeastRank(s, rest, x);
    }
  }

  // ----- promoting an entry -----

  /** The entry id has moved to the tried table; other, if any, has moved back to the new one. */
  ghost predicate Promoted(info: map<nat, Info>, now: map<nat, Info>, id: nat, others: set<nat>) {
    && id in info && !info[id].inTried && id !in others
    && others <= info.Keys && Agree(info, now, {id} + others)
    && now.Keys == info.Keys
    && now[id] == info[id].(refCount := 0, inTried := true)
    && forall x :: x in others ==> info[x].inTried && now[x] == info[x].(refCount := 1, inTried := false)
  }

  lemma PromotedCounts(info: map<nat, Info>, now: map<nat, Info>, id: nat, others: set<nat>)
    requires Promoted(info, now, id, others)
    ensures |TriedIds(now)| == |TriedIds(info)| + 1 - |others| && |NewIds(now)| == |NewIds(info)| - 1 + |others|
  {
    forall x ensures x in TriedIds(now) <==> x in TriedIds(info) - others + {id} {
      assert x in now && x !in {id} + others ==> SameEntry(info[x], now[x]);
    }
    assert TriedIds(now) == TriedIds(info) - others + {id};
    assert others <= TriedIds(info);
    forall x ensures x in NewIds(now) <==> x in NewIds(info) - {id} + others {
      assert x in now && x !in {id} + others ==> SameEntry(info[x], now[x]);
    }
    assert NewIds(now) == NewIds(info) - {id} + others;
    assert (NewIds(info) - {id}) !! others;
  }

  /** An entry has been marked good: it is tried, and at most one other has moved back to the new table. */
  ghost predicate MarkedGood(was: map<nat, Info>, now: map<nat, Info>, id: nat, nTime: int, others: set<nat>) {
    && id in was && now.Keys == was.Keys && Agree(was, now, {id} + others)
    && now[id].inTried && now[id].lastSuccess == now[id].lastTry == nTime && now[id].attempts == 0
    && now[id].addr == was[id].addr.(time := U32(nTime))
    && id !in others && |others| <= 1 && others <= was.Keys
    && forall x :: x in others ==> was[x].inTried && now[x] == was[x].(refCount := 1, inTried := false)
  }

  function Succeeded(e: Info, nTime: int): Info {
    e.(addr := e.addr.(time := U32(nTime)), lastSuccess := nTime, lastTry := nTime, attempts := 0)
  }

  lemma GoodPromoted(was: map<nat, Info>, mid: map<nat, Info>, now: map<nat, Info>, id: nat, nTime: int,
                     others: set<nat>)
    requires id in was && mid == was[id := Succeeded(was[id], nTime)]
    requires if mid[id].inTried then now == mid && others == {} else Promoted(mid, now, id, others) && |others| <= 1
    ensures MarkedGood(was, now, id, nTime, others)
    ensures nTime > 0 && TimesOk(was) ==> TimesOk(now)
  {
    assert mid.Keys == was.Keys == now.Keys;
    assert Agree(was, mid, {id});
    forall x | x in now && x != id && x !in others ensures SameEntry(was[x], now[x]) {
      assert mid[x] == was[x];
    }
    if nTime > 0 && TimesOk(was) {
      forall x | x in now
        ensures now[x].lastTry >= 0 && now[x].lastSuccess >= 0 && (now[x].inTried ==> now[x].lastSuccess != 0)
      {
        assert was[x].lastTry >= 0;
        assert x == id || x in others || SameEntry(was[x], now[x]);
      }
    }
  }

  /** A tried bucket after taking in id and giving up others. */
  ghost predicate TookIn(was: seq<nat>, now: seq<nat>, id: nat, others: set<nat>) {
    && |now| <= TRIED_BUCKET_SIZE
    && (forall i, j :: 0 <= i < j < |now| ==> now[i] != now[j])
    && (forall x :: x in now <==> x == id || (x in was && x !in others))
  }

  lemma PromotedTried(w: Network, key: Key, info: map<nat, Info>, now: map<nat, Info>, tried: seq<seq<nat>>, id: nat,
                      others: set<nat>, b: nat, bucket: seq<nat>)
    requires TriedOk(w, key, info, tried) && Promoted(info, now, id, others)
    requires b == TriedBucket(w, key, info[id])
    requires forall x :: x in others ==> x in tried[b]
    requires TookIn(tried[b], bucket, id, others)
    ensures TriedOk(w, key, now, tried[b := bucket])
  {
    var after := tried[b := bucket];
    forall k | 0 <= k < TRIED_BUCKET_COUNT ensures TriedBucketOk(w, key, now, after[k], k) {
      assert TriedBucketOk(w, key, info, tried[k], k);
      forall i | 0 <= i < |after[k]|
        ensures after[k][i] in now && now[after[k][i]].inTried && TriedBucket(w, key, now[after[k][i]]) == k
      {
        var x := after[k][i];
        assert x in after[k];
        if x != id {
          assert x in tried[k];
          assert TriedBucketOk(w, key, info, tried[b], b);
          assert SameEntry(info[x], now[x]);
        }
      }
    }
    forall x | x in now && now[x].inTried ensures x in after[TriedBucket(w, key, now[x])] {
      if x != id {
        assert x !in others;
        assert SameEntry(info[x], now[x]);
        assert x in tried[TriedBucket(w, key, info[x])];
      }
    }
  }

  /** The new buckets after an entry has left all of them. */
  ghost predicate Purged(was: seq<set<nat>>, now: seq<set<nat>>, id: nat) {
    |now| == |was| && forall b :: 0 <= b < |was| ==> now[b] == was[b] - {id}
  }

  lemma {:induction false} PurgedOccurrences(was: seq<set<nat>>, now: seq<set<nat>>, id: nat, x: nat)
    requires Purged(was, now, id)
    ensures Occurrences(now, x) == if x == id then 0 else Occurrences(was, x)
    decreases |was|
  {
    if was != [] {
      var n := |was| - 1;
      assert was[n] - {id} == now[n];
      PurgedOccurrences(was[..n], now[..n], id, x);
    }
  }

  /** New buckets after an entry has been promoted and nothing came back. */
  lemma PromotedRefs(info: map<nat, Info>, now: map<nat, Info>, was: seq<set<nat>>, purged: seq<set<nat>>, id: nat)
    requires NewBucketsOk(info, was) && RefsOk(info, was, -1) && Purged(was, purged, id) && Promoted(info, now, id, {})
    ensures NewBucketsOk(now, purged) && RefsOk(now, purged, -1)
  {
    forall x | x in now ensures RefOk(now[x], Occurrences(purged, x)) {
      PurgedOccurrences(was, purged, id, x);
      assert x != id ==> SameEntry(info[x], now[x]);
    }
    forall b | 0 <= b < NEW_BUCKET_COUNT ensures |purged[b]| <= NEW_BUCKET_SIZE && purged[b] <= now.Keys {
      SubsetSize(purged[b], was[b]);
    }
  }

  lemma SubsetSize<T>(a: set<T>, b: set<T>)
    requires a <= b
    ensures |a| <= |b|
  {
    assert |b - a| + |a| == |b|;
  }

  /** New buckets after an entry has been promoted and another has come back, to bucket b. */
  lemma SwappedRefs(info: map<nat, Info>, now: map<nat, Info>, was: seq<set<nat>>, purged: seq<set<nat>>, id: nat,
                    other: nat, b: nat)
    requires NewBucketsOk(info, was) && RefsOk(info, was, -1) && Purged(was, purged, id)
    requires Promoted(info, now, id, {other})
    requires b < NEW_BUCKET_COUNT && |purged[b]| < NEW_BUCKET_SIZE
    ensures NewBucketsOk(now, purged[b := purged[b] + {other}]) && RefsOk(now, purged[b := purged[b] + {other}], -1)
  {
    var after := purged[b := purged[b] + {other}];
    OccurrencesPositive(was, other);
    forall x | x in now ensures RefOk(now[x], Occurrences(after, x)) {
      PurgedOccurrences(was, purged, id, x);
      OccurrencesUpdate(purged, b, purged[b] + {other}, x);
      assert other !in was[b];
      assert x != id && x != other ==> SameEntry(info[x], now[x]);
    }
    forall k | 0 <= k < NEW_BUCKET_COUNT ensures |after[k]| <= NEW_BUCKET_SIZE && after[k] <= now.Keys {
      SubsetSize(purged[k], was[k]);
    }
  }

  /** The first terrible entry of a bucket in ascending order, or -1. */
  method FirstTerrible(info: map<nat, Info>, bucket: set<nat>, now: int) returns (r: int)
    requires bucket <= info.Keys
    ensures if exists y :: y in bucket && info[y].IsTerrible(now)
            then r >= 0 && r in bucket && info[r].IsTerrible(now)
                 && forall y :: y in bucket && info[y].IsTerrible(now) ==> r <= y
            else r == -1
  {
    var rest := bucket;
    while rest != {}
      invariant Suffix(bucket, rest)
      invariant forall y :: y in bucket - rest ==> !info[y].IsTerrible(now)
      decreases |rest|
    {
      HasLeast(rest);
      var id :| id in rest && forall y :: y in rest ==> id <= y;
      if info[id].IsTerrible(now) {
        return id;
      }
      LeastRank(bucket, rest, id);
      rest := rest - {id};
    }
    r := -1;
  }

  /** The least recently seen of the entries at four random positions. */
  method OldestPicked(info: map<nat, Info>, bucket: set<nat>, rnd: seq<nat>) returns (r: nat)
    requires bucket <= info.Keys && bucket != {} && |rnd| == 4
    ensures Picked(bucket, rnd, r)
    ensures forall y :: y in bucket && Picked(bucket, rnd, y) ==> info[r].addr.time <= info[y].addr.time
  {
    var n := |bucket|;
    var nI := 0;
    var nOldest: int := -1;
    var rest := bucket;
    while rest != {}
      invariant Suffix(bucket, rest) && nI == n - |rest|
      invariant nOldest >= -1
      invariant nOldest >= 0 ==> nOldest in bucket && Picked(bucket, rnd, nOldest)
      invariant forall y :: y in bucket - rest && Picked(bucket, rnd, y) ==>
                  nOldest >= 0 && info[nOldest].addr.time <= info[y].addr.time
      decreases |rest|
    {
      HasLeast(rest);
      var id :| id in rest && forall y :: y in rest ==> id <= y;
      LeastRank(bucket, rest, id);
      if nI == rnd[0] % n || nI == rnd[1] % n || nI == rnd[2] % n || nI == rnd[3] % n {
        assert Picked(bucket, rnd, id);
        if nOldest == -1 || info[id].addr.time < info[nOldest].addr.time {
          nOldest := id;
        }
      } else {
        assert !Picked(bucket, rnd, id);
      }
      rest := rest - {id};
      nI := nI + 1;
    }
    ghost var first := AtRank(bucket, rnd[0] % n);
    assert Picked(bucket, rnd, first);
    r := nOldest;
  }

  /** The same elements, none twice. */
  ghost predicate Shuffled(was: seq<nat>, now: seq<nat>) {
    && |now| == |was|
    && (forall i, j :: 0 <= i < j < |now| ==> now[i] != now[j])
    && (forall x :: x in now <==> x in was)
  }

  lemma SwapShuffles(was: seq<nat>, s: seq<nat>, i: nat, j: nat)
    requires Shuffled(was, s) && i < |s| && j < |s|
    ensures Shuffled(was, s[j := s[i]][i := s[j]])
  {
    var t := s[j := s[i]][i := s[j]];
    forall x ensures x in t <==> x in s {
      if x in s {
        var k :| 0 <= k < |s| && s[k] == x;
        assert t[if k == i then j else if k == j then i else k] == x;
      }
    }
  }

  /** Shuffles the first few elements of a tried bucket and chooses a position to replace. */
  method SelectPosition(info: map<nat, Info>, bucket: seq<nat>) returns (vTried: seq<nat>, nOldestPos: int)
    requires forall x :: x in bucket ==> x in info
    requires forall i, j :: 0 <= i < j < |bucket| ==> bucket[i] != bucket[j]
    ensures Shuffled(bucket, vTried)
    ensures bucket != [] ==> 0 <= nOldestPos < |vTried|
  {
    vTried := bucket;
    var nOldest: int := -1;
    nOldestPos := -1;
    var i := 0;
    while i < TRIED_ENTRIES_INSPECT_ON_EVICT && i < |vTried|
      invariant Shuffled(bucket, vTried)
      invariant nOldest == -1 <==> i == 0
      invariant nOldest >= -1 && (nOldest >= 0 ==> nOldest in info && 0 <= nOldestPos < |vTried|)
    {
      var nPos :| i <= nPos < |vTried|;
      var nTemp := vTried[nPos];
      SwapShuffles(bucket, vTried, i, nPos);
      vTried := vTried[nPos := vTried[i]][i := nTemp];
      assert nTemp in bucket;
      if nOldest == -1 || info[nTemp].lastSuccess < info[nOldest].lastSuccess {
        nOldest := nTemp;
        nOldestPos := nPos;
      }
      i := i + 1;
    }
  }

  lemma RoomForOne(was: seq<nat>, id: nat)
    requires |was| < TRIED_BUCKET_SIZE && id !in was && forall i, j :: 0 <= i < j < |was| ==> was[i] != was[j]
    ensures TookIn(was, was + [id], id, {})
  {
  }

  lemma Exchanged(was: seq<nat>, now: seq<nat>, id: nat, pos: nat)
    requires Shuffled(was, now) && |now| <= TRIED_BUCKET_SIZE && id !in was && pos < |now|
    ensures TookIn(was, now[pos := id], id, {now[pos]})
  {
    var s := now[pos := id];
    forall x ensures x in s <==> x == id || (x in was && x != now[pos]) {
      if x == id {
        assert s[pos] == x;
      } else if x in was && x != now[pos] {
        var k :| 0 <= k < |now| && now[k] == x;
        assert s[k] == x;
      }
    }
  }

  lemma Overwritten(m: map<nat, Info>, k: nat, a: Info, x: nat, c: Info, b: Info)
    ensures m[k := a][k := b] == m[k := b]
    ensures m[k := a][x := c][k := b] == m[x := c][k := b]
  {
  }

  /** An entry moves to a tried bucket with room. */
  lemma {:induction false} PromoteWithRoom(w: Network, key: Key, idCount: nat, info: map<nat, Info>,
                                           addr: map<NetAddr, nat>, random: seq<nat>, tried: seq<seq<nat>>,
                                           news: seq<set<nat>>, purged: seq<set<nat>>, id: nat, now: map<nat, Info>,
                                           k: nat, nNew: int, nTried: int)
    requires CountsOk(info, nNew + 1, nTried)
    requires IdsOk(info, idCount) && RandomOk(info, random) && AddrOk(info, addr) && TriedOk(w, key, info, tried)
    requires NewBucketsOk(info, news) && RefsOk(info, news, -1) && Purged(news, purged, id)
    requires id in info && !info[id].inTried && k == TriedBucket(w, key, info[id]) && |tried[k]| < TRIED_BUCKET_SIZE
    requires now == info[id := info[id].(refCount := 0, inTried := true)]
    ensures IdsOk(now, idCount) && RandomOk(now, random) && AddrOk(now, addr)
    ensures TriedOk(w, key, now, tried[k := tried[k] + [id]]) && NewBucketsOk(now, purged) && RefsOk(now, purged, -1)
    ensures Promoted(info, now, id, {})
    ensures CountsOk(now, nNew, nTried + 1)
  {
    Touched(info, id, info[id].(refCount := 0, inTried := true), addr, random, idCount);
    assert TriedBucketOk(w, key, info, tried[k], k);
    assert Promoted(info, now, id, {}) by {
      assert now.Keys == info.Keys;
    }
    RoomForOne(tried[k], id);
    PromotedTried(w, key, info, now, tried, id, {}, k, tried[k] + [id]);
    PromotedRefs(info, now, news, purged, id);
    PromotedCounts(info, now, id, {});
  }

  /** An entry moves to a full tried bucket, in exchange for another. */
  lemma {:induction false} PromoteByExchange(w: Network, key: Key, idCount: nat, info: map<nat, Info>,
                                             addr: map<NetAddr, nat>, random: seq<nat>, tried: seq<seq<nat>>,
                                             news: seq<set<nat>>, purged: seq<set<nat>>, id: nat, now: map<nat, Info>,
                                             k: nat, shuffled: seq<nat>, pos: nat, other: nat, b: nat, nNew: int,
                                             nTried: int)
    requires CountsOk(info, nNew, nTried)
    requires IdsOk(info, idCount) && RandomOk(info, random) && AddrOk(info, addr) && TriedOk(w, key, info, tried)
    requires NewBucketsOk(info, news) && RefsOk(info, news, -1) && Purged(news, purged, id)
    requires id in info && !info[id].inTried && k == TriedBucket(w, key, info[id])
    requires Shuffled(tried[k], shuffled) && pos < |shuffled| && other == shuffled[pos] && other in info
    requires b < NEW_BUCKET_COUNT && |purged[b]| < NEW_BUCKET_SIZE
    requires now == info[other := info[other].(inTried := false, refCount := 1)]
                        [id := info[id].(refCount := 0, inTried := true)]
    ensures IdsOk(now, idCount) && RandomOk(now, random) && AddrOk(now, addr)
    ensures TriedOk(w, key, now, tried[k := shuffled[pos := id]])
    ensures NewBucketsOk(now, purged[b := purged[b] + {other}]) && RefsOk(now, purged[b := purged[b] + {other}], -1)
    ensures Promoted(info, now, id, {other}) && other in tried[k]
    ensures CountsOk(now, nNew, nTried)
  {
    var mid := info[other := info[other].(inTried := false, refCount := 1)];
    Touched(info, other, mid[other], addr, random, idCount);
    assert TriedBucketOk(w, key, info, tried[k], k);
    assert other in shuffled;
    Touched(mid, id, info[id].(refCount := 0, inTried := true), addr, random, idCount);
    assert now.Keys == info.Keys;
    assert Promoted(info, now, id, {other});
    Exchanged(tried[k], shuffled, id, pos);
    PromotedTried(w, key, info, now, tried, id, {other}, k, shuffled[pos := id]);
    SwappedRefs(info, now, news, purged, id, other, b);
    PromotedCounts(info, now, id, {other});
  }

  /** Changes to statistics concern no index. */
  lemma Retouched(w: Network, key: Key, info: map<nat, Info>, id: nat, e: Info, tried: seq<seq<nat>>,
                  news: seq<set<nat>>)
    requires id in info && e.addr.service == info[id].addr.service
    requires e.refCount == info[id].refCount && e.inTried == info[id].inTried
    requires TriedOk(w, key, info, tried) && NewBucketsOk(info, news) && RefsOk(info, news, -1)
    ensures TriedOk(w, key, info[id := e], tried) && NewBucketsOk(info[id := e], news)
            && RefsOk(info[id := e], news, -1)
    ensures NewIds(info[id := e]) == NewIds(info) && TriedIds(info[id := e]) == TriedIds(info)
  {
    var now := info[id := e];
    forall b | 0 <= b < TRIED_BUCKET_COUNT ensures TriedBucketOk(w, key, now, tried[b], b) {
      assert TriedBucketOk(w, key, info, tried[b], b);
    }
    forall x | x in now && now[x].inTried ensures x in tried[TriedBucket(w, key, now[x])] {
      assert x in tried[TriedBucket(w, key, info[x])];
    }
    assert now.Keys == info.Keys;
    assert Agree(info, now, {id});
    CountKept(info, now, id);
  }

  /** One new bucket takes in an entry whose references already count it. */
  lemma Inserted(info: map<nat, Info>, news: seq<set<nat>>, b: nat, id: nat)
    requires NewBucketsOk(info, news) && RefsOk(info, news, id) && b < NEW_BUCKET_COUNT
    requires id in info && id !in news[b] && |news[b]| < NEW_BUCKET_SIZE
    requires !info[id].inTried && info[id].refCount == Occurrences(news, id) + 1 <= NEW_BUCKETS_PER_ADDRESS
    ensures NewBucketsOk(info, news[b := news[b] + {id}]) && RefsOk(info, news[b := news[b] + {id}], -1)
  {
    forall x | x in info ensures RefOk(info[x], Occurrences(news[b := news[b] + {id}], x)) {
      OccurrencesUpdate(news, b, news[b] + {id}, x);
    }
  }

  lemma OccurrencesBelow(news: seq<set<nat>>, b: nat, victim: nat, id: nat)
    requires b < |news| && id != victim
    ensures Occurrences(news[b := news[b] - {victim}], id) == Occurrences(news, id)
  {
    OccurrencesUpdate(news, b, news[b] - {victim}, id);
  }

  /** How far bucket b is after bucket start, going round. */
  function Offset(start: nat, b: nat): (k: nat)
    requires start < NEW_BUCKET_COUNT && b < NEW_BUCKET_COUNT
    ensures k < NEW_BUCKET_COUNT && (k + start) % NEW_BUCKET_COUNT == b
  {
    if b >= start then b - start else b + NEW_BUCKET_COUNT - start
  }

  /** What a sighting of a known address changes in its entry. */
  function Refreshed(e: Info, addr: Address, now: int, nTimePenalty: int): (r: Info)
    ensures r == e.(addr := r.addr) && r.addr.service == e.addr.service
  {
    var interval := if now - addr.time < 24 * 60 * 60 then 60 * 60 else 24 * 60 * 60;
    var time := if addr.time != 0 && (e.addr.time == 0 || e.addr.time < addr.time - interval - nTimePenalty)
                then U32(Penalised(addr.time, nTimePenalty)) else e.addr.time;
    e.(addr := Address(e.addr.service, e.addr.services + addr.services, time))
  }

  /** The entry of an address that has been seen, known or not, up to references and position. */
  function Sighted(was: map<nat, Info>, id: nat, addr: Address, source: NetAddr, nTimePenalty: int, now: int): Info {
    if id in was then Refreshed(was[id], addr, now, nTimePenalty)
    else Info(addr.(time := U32(Penalised(addr.time, nTimePenalty))), source, 0, 0, 0, 0, false, 0)
  }

  lemma SightedTimes(was: map<nat, Info>, mapInfo: map<nat, Info>, id: nat, addr: Address, source: NetAddr,
                     penalty: int, now: int, victims: set<nat>)
    requires TimesOk(was) && Agree(was, mapInfo, {id} + victims) && Lowered(was, mapInfo, victims) && id in mapInfo
    requires mapInfo[id] ==
               Sighted(was, id, addr, source, penalty, now)
               .(refCount := mapInfo[id].refCount, randomPos := mapInfo[id].randomPos)
    ensures TimesOk(mapInfo)
  {
    forall x | x in mapInfo
      ensures mapInfo[x].lastTry >= 0 && mapInfo[x].lastSuccess >= 0
              && (mapInfo[x].inTried ==> mapInfo[x].lastSuccess != 0)
    {
      if x != id {
        assert x in victims || x in mapInfo.Keys - ({id} + victims);
        assert was[x].lastTry >= 0;
      } else if id in was {
        assert was[x].lastTry >= 0;
      }
    }
  }

  function Penalised(time: int, nTimePenalty: int): int {
    if time - nTimePenalty > 0 then time - nTimePenalty else 0
  }

  /** Is a sighting worth another reference? */
  predicate WorthAnother(e: Info, addr: Address, coin: nat) {
    && addr.time != 0 && (e.addr.time == 0 || addr.time > e.addr.time)
    && !e.inTried && 0 <= e.refCount != NEW_BUCKETS_PER_ADDRESS
    && coin % Pow2(e.refCount) == 0
  }

  /** Nothing is in the way of an id that has never been used. */
  lemma UnusedId(info: map<nat, Info>, news: seq<set<nat>>, id: nat)
    requires NewBucketsOk(info, news) && id !in info
    ensures Occurrences(news, id) == 0
  {
    OccurrencesPositive(news, id);
  }

  lemma {:induction false} CreatedIndexes(w: Network, key: Key, info: map<nat, Info>, id: nat, e: Info,
                                          tried: seq<seq<nat>>, news: seq<set<nat>>)
    requires TriedOk(w, key, info, tried) && NewBucketsOk(info, news) && RefsOk(info, news, -1) && id !in info
    requires !e.inTried
    ensures TriedOk(w, key, info[id := e], tried) && NewBucketsOk(info[id := e], news)
            && RefsOk(info[id := e], news, id)
    ensures |NewIds(info[id := e])| == |NewIds(info)| + 1 && TriedIds(info[id := e]) == TriedIds(info)
  {
    var now := info[id := e];
    assert Agree(info, now, {id});
    TriedFrame(w, key, info, now, tried, {id});
    CountCreated(info, id, e);
    forall b | 0 <= b < NEW_BUCKET_COUNT ensures |news[b]| <= NEW_BUCKET_SIZE && news[b] <= now.Keys {
      assert news[b] <= info.Keys;
    }
  }

  lemma CountCreated(info: map<nat, Info>, id: nat, e: Info)
    requires id !in info && !e.inTried
    ensures |NewIds(info[id := e])| == |NewIds(info)| + 1
  {
    assert NewIds(info[id := e]) == NewIds(info) + {id};
  }

  /** The number of addresses given to a peer. */
  function SampleSize(n: nat): (r: nat)
    ensures r <= n
  {
    Min(GETADDR_MAX_PCT * n / 100, GETADDR_MAX)
  }

  /** Positions in vRandom concern no other index. */
  lemma Shuffling(info: map<nat, Info>, now: map<nat, Info>, w: Network, key: Key, idCount: nat,
                  addr: map<NetAddr, nat>, tried: seq<seq<nat>>, news: seq<set<nat>>)
    requires now.Keys == info.Keys && Agree(info, now, {})
    requires IdsOk(info, idCount) && AddrOk(info, addr) && TriedOk(w, key, info, tried)
    requires NewBucketsOk(info, news) && RefsOk(info, news, -1)
    ensures IdsOk(now, idCount) && AddrOk(now, addr) && TriedOk(w, key, now, tried)
    ensures NewBucketsOk(now, news) && RefsOk(now, news, -1)
    ensures NewIds(now) == NewIds(info) && TriedIds(now) == TriedIds(info)
  {
    TriedFrame(w, key, info, now, tried, {});
    forall id | id in now ensures SameEntry(info[id], now[id]) && info[id].Net() == now[id].Net() {
    }
    forall id ensures id in NewIds(now) <==> id in NewIds(info) {
      assert id in now ==> SameEntry(info[id], now[id]);
    }
  }

  /** 2 to the power of the reference count. */
  method Factor(refCount: nat) returns (nFactor: nat)
    ensures nFactor == Pow2(refCount)
  {
    nFactor := 1;
    for n := 0 to refCount
      invariant nFactor == Pow2(n)
    {
      nFactor := nFactor * 2;
    }
  }

  // ----- bounds -----

  ghost function Elements(s: seq<nat>): set<nat> {
    set x | x in s
  }

  lemma {:induction false} ElementsSize(s: seq<nat>)
    ensures |Elements(s)| <= |s|
    ensures (forall i, j :: 0 <= i < j < |s| ==> s[i] != s[j]) ==> |Elements(s)| == |s|
    decreases |s|
  {
    if s != [] {
      var n := |s| - 1;
      ElementsSize(s[..n]);
      assert s == s[..n] + [s[n]];
      assert Elements(s) == Elements(s[..n]) + {s[n]};
    }
  }

  ghost function Union(buckets: seq<set<nat>>): set<nat> {
    if buckets == [] then {} else Union(buckets[..|buckets| - 1]) + buckets[|buckets| - 1]
  }

  lemma {:induction false} UnionBound(buckets: seq<set<nat>>, size: nat)
    requires forall b :: 0 <= b < |buckets| ==> |buckets[b]| <= size
    ensures |Union(buckets)| <= |buckets| * size
    ensures forall b :: 0 <= b < |buckets| ==> buckets[b] <= Union(buckets)
    decreases |buckets|
  {
    if buckets != [] {
      var n := |buckets| - 1;
      UnionBound(buckets[..n], size);
      assert (n + 1) * size == n * size + size;
      forall b | 0 <= b < |buckets| ensures buckets[b] <= Union(buckets) {
        assert b < n ==> buckets[..n][b] == buckets[b];
      }
    }
  }

  /** The manager never holds more than 64 * 64 tried and 256 * 64 new entries. */
  lemma EntriesBounded(w: Network, key: Key, info: map<nat, Info>, tried: seq<seq<nat>>, news: seq<set<nat>>)
    requires TriedOk(w, key, info, tried) && NewBucketsOk(info, news) && RefsOk(info, news, -1)
    ensures |TriedIds(info)| <= TRIED_BUCKET_COUNT * TRIED_BUCKET_SIZE
    ensures |NewIds(info)| <= NEW_BUCKET_COUNT * NEW_BUCKET_SIZE
  {
    var sets := seq(TRIED_BUCKET_COUNT, b requires 0 <= b < TRIED_BUCKET_COUNT => Elements(tried[b]));
    forall b | 0 <= b < TRIED_BUCKET_COUNT ensures |sets[b]| <= TRIED_BUCKET_SIZE {
      assert TriedBucketOk(w, key, info, tried[b], b);
      ElementsSize(tried[b]);
    }
    UnionBound(sets, TRIED_BUCKET_SIZE);
    forall id | id in TriedIds(info) ensures id in Union(sets) {
      assert id in sets[TriedBucket(w, key, info[id])];
    }
    SubsetSize(TriedIds(info), Union(sets));
    UnionBound(news, NEW_BUCKET_SIZE);
    forall id | id in NewIds(info) ensures id in Union(news) {
      assert RefOk(info[id], Occurrences(news, id));
      OccurrencesPositive(news, id);
    }
    SubsetSize(NewIds(info), Union(news));
  }

  /** vRandom is as long as there are entries. */
  lemma RandomSize(info: map<nat, Info>, random: seq<nat>)
    requires RandomOk(info, random)
    ensures |random| == |info| == |TriedIds(info)| + |NewIds(info)|
  {
    forall id | id in info ensures id in Elements(random) {
      assert random[info[id].randomPos] == id;
    }
    assert Elements(random) == info.Keys;
    ElementsSize(random);
    assert info.Keys == TriedIds(info) + NewIds(info);
  }

  /** The calls that change the manager. */
  datatype Call =
    | CallAdd(addr: Address, source: NetAddr, penalty: int, now: int, coin: nat, r0: nat, r1: nat, r2: nat, r3: nat)
    | CallGood(service: Service, time: int, rnd: nat)
    | CallAttempt(service: Service, time: int)
    | CallConnected(service: Service, time: int)
    | CallGetAddr

  /** The times that callers report come from a clock after the epoch. */
  predicate TimePositive(call: Call) {
    (call.CallGood? || call.CallAttempt?) ==> call.time > 0
  }

  lemma ShuffledTimes(was: map<nat, Info>, now: map<nat, Info>)
    requires TimesOk(was) && Agree(was, now, {}) && now.Keys == was.Keys
    ensures TimesOk(now)
  {
    forall x | x in now
      ensures now[x].lastTry >= 0 && now[x].lastSuccess >= 0 && (now[x].inTried ==> now[x].lastSuccess != 0)
    {
      assert was[x].lastTry >= 0;
    }
  }

  /** Who moves back to the new table for id: nobody if its tried bucket has room, else one of that bucket. */
  ghost predicate MovedBack(w: Network, key: Key, info: map<nat, Info>, tried: seq<seq<nat>>, was: seq<set<nat>>,
                            now: seq<set<nat>>, id: nat, nOrigin: nat, others: set<nat>) {
    && id in info && |tried| == TRIED_BUCKET_COUNT
    && var bucket := tried[TriedBucket(w, key, info[id])];
       if |bucket| < TRIED_BUCKET_SIZE then others == {} && Purged(was, now, id)
       else |others| == 1 && forall x :: x in others ==>
              x in bucket && x in info && SentHome(w, key, info[x], was, now, id, x, nOrigin)
  }

  /** Where an entry goes that leaves the tried table: its own new bucket if there is room, else the other's. */
  function Home(w: Network, key: Key, e: Info, news: seq<set<nat>>, nOrigin: nat): (b: nat)
    requires |news| == NEW_BUCKET_COUNT && nOrigin < NEW_BUCKET_COUNT
    ensures b < NEW_BUCKET_COUNT && (b == nOrigin || |news[b]| < NEW_BUCKET_SIZE)
  {
    var own := NewBucket(w, key, e, e.source);
    if |news[own]| < NEW_BUCKET_SIZE then own else nOrigin
  }

  /** The new buckets after id has left all of them and x has come home. */
  ghost predicate SentHome(w: Network, key: Key, e: Info, was: seq<set<nat>>, now: seq<set<nat>>, id: nat, x: nat,
                           nOrigin: nat) {
    && |was| == |now| == NEW_BUCKET_COUNT && nOrigin < NEW_BUCKET_COUNT
    && var own := NewBucket(w, key, e, e.source);
    && var home := if |was[own] - {id}| < NEW_BUCKET_SIZE then own else nOrigin;
    && x in now[home] && forall b :: 0 <= b < NEW_BUCKET_COUNT ==>
         now[b] == was[b] - {id} + (if b == home then {x} else {})
  }

  lemma CameHome(w: Network, key: Key, e: Info, was: seq<set<nat>>, purged: seq<set<nat>>, id: nat, x: nat,
                 nOrigin: nat, b: nat)
    requires |was| == NEW_BUCKET_COUNT && nOrigin < NEW_BUCKET_COUNT
    requires Purged(was, purged, id) && b == Home(w, key, e, purged, nOrigin)
    ensures SentHome(w, key, e, was, purged[b := purged[b] + {x}], id, x, nOrigin)
  {
    var own := NewBucket(w, key, e, e.source);
    assert purged[own] == was[own] - {id};
  }

  // ----- the manager -----

  class AddrManager {
    const network: Network
    var nKey: Key
    var nIdCount: nat
    var mapInfo: map<nat, Info>
    var mapAddr: map<NetAddr, nat>
    var vRandom: seq<nat>
    var nTried: int
    var vvTried: seq<seq<nat>>
    var nNew: int
    var vvNew: seq<set<nat>>

    /** Everything is consistent, except for the references of one entry. */
    ghost predicate ConsistentBut(loose: int)
      reads this
    {
      && IdsOk(mapInfo, nIdCount)
      && RandomOk(mapInfo, vRandom)
      && AddrOk(mapInfo, mapAddr)
      && TriedOk(network, nKey, mapInfo, vvTried)
      && NewBucketsOk(mapInfo, vvNew)
      && RefsOk(mapInfo, vvNew, loose)
      && CountsOk(mapInfo, nNew, nTried)
    }

    ghost predicate Consistent()
      reads this
    {
      ConsistentBut(-1)
    }

    constructor (network: Network, nKey: Key)
      ensures Consistent() && mapInfo == map[] && nNew == nTried == 0
      ensures this.network == network && this.nKey == nKey
    {
      this.network, this.nKey := network, nKey;
      nIdCount, mapInfo, mapAddr, vRandom, nTried, nNew := 0, map[], map[], [], 0, 0;
      vvTried := seq(TRIED_BUCKET_COUNT, _ => []);
      vvNew := seq(NEW_BUCKET_COUNT, _ => {});
    }

    method Create(addr: Address, source: NetAddr) returns (nId: nat)
      requires ConsistentBut(-1) && addr.service.net !in mapAddr
      modifies `nIdCount, `mapInfo, `mapAddr, `vRandom
      ensures nId == old(nIdCount) && nIdCount == nId + 1 && nId !in old(mapInfo)
      ensures mapInfo == old(mapInfo)[nId := Info(addr, source, 0, 0, 0, 0, false, old(|vRandom|))]
      ensures mapAddr == old(mapAddr)[addr.service.net := nId]
      ensures vRandom == old(vRandom) + [nId]
      ensures IdsOk(mapInfo, nIdCount) && RandomOk(mapInfo, vRandom) && AddrOk(mapInfo, mapAddr)
    {
      nId := nIdCount;
      nIdCount := nIdCount + 1;
      var e := Info(addr, source, 0, 0, 0, 0, false, -1);
      mapAddr := mapAddr[e.Net() := nId];
      e := e.(randomPos := |vRandom|);
      RandomPush(mapInfo, vRandom, nId, e);
      mapInfo := mapInfo[nId := e];
      vRandom := vRandom + [nId];
    }

    method SwapRandom(nRndPos1: nat, nRndPos2: nat)
      requires RandomOk(mapInfo, vRandom) && nRndPos1 < |vRandom| && nRndPos2 < |vRandom|
      modifies `mapInfo, `vRandom
      ensures RandomOk(mapInfo, vRandom) && Agree(old(mapInfo), mapInfo, {}) && mapInfo.Keys == old(mapInfo.Keys)
      ensures vRandom == old(vRandom)[nRndPos1 := old(vRandom[nRndPos2])][nRndPos2 := old(vRandom[nRndPos1])]
    {
      if nRndPos1 == nRndPos2 {
        return;
      }
      var nId1, nId2 := vRandom[nRndPos1], vRandom[nRndPos2];
      mapInfo := mapInfo[nId1 := mapInfo[nId1].(randomPos := nRndPos2)];
      mapInfo := mapInfo[nId2 := mapInfo[nId2].(randomPos := nRndPos1)];
      vRandom := vRandom[nRndPos1 := nId2];
      vRandom := vRandom[nRndPos2 := nId1];
    }

    /** The last reference to an entry is gone: it is deleted. */
    method Delete(id: nat)
      requires IdsOk(mapInfo, nIdCount) && RandomOk(mapInfo, vRandom) && AddrOk(mapInfo, mapAddr) && id in mapInfo
      modifies `mapInfo, `mapAddr, `vRandom, `nNew
      ensures IdsOk(mapInfo, nIdCount) && RandomOk(mapInfo, vRandom) && AddrOk(mapInfo, mapAddr)
      ensures mapInfo.Keys == old(mapInfo.Keys) - {id} && Agree(old(mapInfo), mapInfo, {id})
      ensures mapAddr == old(mapAddr) - {old(mapInfo[id].Net())}
      ensures nNew == old(nNew) - 1
    {
      ghost var info := mapInfo;
      SwapRandom(mapInfo[id].randomPos, |vRandom| - 1);
      AgreeRemoved(info, mapInfo, id);
      RandomPop(mapInfo, vRandom, id);
      vRandom := vRandom[..|vRandom| - 1];
      var rest := mapInfo - {id};
      AddrRemoved(info, rest, mapAddr, id);
      mapAddr := mapAddr - {mapInfo[id].Net()};
      mapInfo := rest;
      nNew := nNew - 1;
    }

    /** An entry loses a reference, and is deleted with the last one. */
    method Unreference(id: nat)
      requires IdsOk(mapInfo, nIdCount) && RandomOk(mapInfo, vRandom)
      requires AddrOk(mapInfo, mapAddr) && CountsOk(mapInfo, nNew, nTried)
      requires id in mapInfo && !mapInfo[id].inTried && mapInfo[id].refCount > 0
      modifies `mapInfo, `mapAddr, `vRandom, `nNew
      ensures IdsOk(mapInfo, nIdCount) && RandomOk(mapInfo, vRandom)
      ensures AddrOk(mapInfo, mapAddr) && CountsOk(mapInfo, nNew, nTried)
      ensures Agree(old(mapInfo), mapInfo, {id})
      ensures if old(mapInfo[id].refCount) == 1 then id !in mapInfo
              else id in mapInfo && mapInfo[id] == old(mapInfo[id]).(refCount := old(mapInfo[id].refCount) - 1)
    {
      var info := mapInfo;
      var e := info[id].(refCount := info[id].refCount - 1);
      Touched(info, id, e, mapAddr, vRandom, nIdCount);
      mapInfo := info[id := e];
      if e.refCount == 0 {
        Delete(id);
        AgreeTransitive(info, info[id := e], mapInfo, {id}, {id});
        assert {id} + {id} == {id};
        CountRemoved(info, mapInfo, id);
      } else {
        CountKept(info, mapInfo, id);
      }
    }

    /** Removes an entry from one new bucket. */
    method Release(nUBucket: nat, id: nat, ghost loose: int)
      requires ConsistentBut(loose) && nUBucket < NEW_BUCKET_COUNT && id in vvNew[nUBucket] && id != loose
      modifies `mapInfo, `mapAddr, `vRandom, `nNew, `vvNew
      ensures ConsistentBut(loose)
      ensures vvNew == old(vvNew)[nUBucket := old(vvNew[nUBucket]) - {id}]
      ensures Agree(old(mapInfo), mapInfo, {id})
      ensures Lowered(old(mapInfo), mapInfo, {id})
    {
      ghost var was := mapInfo;
      OccurrencesPositive(vvNew, id);
      assert RefOk(was[id], Occurrences(vvNew, id));
      Unreference(id);
      TriedFrame(network, nKey, was, mapInfo, vvTried, {id});
      Released(was, mapInfo, vvNew, nUBucket, id, loose);
      vvNew := vvNew[nUBucket := vvNew[nUBucket] - {id}];
    }

    /**
     Makes room in a new bucket. Drops a terrible entry if there is one, and
     otherwise the least recently seen of four chosen at random.
     */
    method ShrinkNew(nUBucket: nat, now: int, rnd: seq<nat>, ghost loose: int) returns (r: int, ghost victim: nat)
      requires ConsistentBut(loose) && nUBucket < NEW_BUCKET_COUNT && loose !in vvNew[nUBucket]
      requires vvNew[nUBucket] != {} && |rnd| == 4
      modifies `mapInfo, `mapAddr, `vRandom, `nNew, `vvNew
      ensures ConsistentBut(loose)
      ensures IsVictim(old(mapInfo), old(vvNew[nUBucket]), now, rnd, victim)
      ensures r == if old(mapInfo[victim].IsTerrible(now)) then 0 else 1
      ensures vvNew == old(vvNew)[nUBucket := old(vvNew[nUBucket]) - {victim}]
      ensures Agree(old(mapInfo), mapInfo, {victim})
      ensures Lowered(old(mapInfo), mapInfo, {victim})
    {
      var found := FirstTerrible(mapInfo, vvNew[nUBucket], now);
      if found >= 0 {
        victim := found;
        Release(nUBucket, found, loose);
        return 0, found;
      }
      var nOldest := OldestPicked(mapInfo, vvNew[nUBucket], rnd);
      Release(nUBucket, nOldest, loose);
      return 1, nOldest;
    }

    /** Removes an entry from all new buckets. */
    method Purge(nId: nat)
      requires nId in mapInfo && mapInfo[nId].refCount == Occurrences(vvNew, nId)
      modifies `mapInfo, `vvNew
      ensures Purged(old(vvNew), vvNew, nId)
      ensures mapInfo == old(mapInfo)[nId := old(mapInfo[nId]).(refCount := 0)]
    {
      ghost var was := vvNew;
      ghost var info := mapInfo;
      for b := 0 to |vvNew|
        invariant |vvNew| == |was|
        invariant forall k :: 0 <= k < b ==> vvNew[k] == was[k] - {nId}
        invariant forall k :: b <= k < |was| ==> vvNew[k] == was[k]
        invariant mapInfo == info[nId := info[nId].(refCount := Occurrences(vvNew, nId))]
      {
        OccurrencesUpdate(vvNew, b, vvNew[b] - {nId}, nId);
        if nId in vvNew[b] {
          mapInfo := mapInfo[nId := mapInfo[nId].(refCount := mapInfo[nId].refCount - 1)];
          vvNew := vvNew[b := vvNew[b] - {nId}];
        }
      }
      OccurrencesPositive(vvNew, nId);
    }

    /** The entry has left all new buckets, and nothing else has changed since info and news. */
    ghost predicate Leaving(nId: nat, info: map<nat, Info>, news: seq<set<nat>>)
      reads this
    {
      && IdsOk(info, nIdCount) && RandomOk(info, vRandom) && AddrOk(info, mapAddr)
      && TriedOk(network, nKey, info, vvTried) && NewBucketsOk(info, news) && RefsOk(info, news, -1)
      && CountsOk(info, nNew + 1, nTried)
      && nId in info && !info[nId].inTried && mapInfo == info[nId := info[nId].(refCount := 0)]
      && Purged(news, vvNew, nId)
    }

    /** A tried bucket with room takes the entry. */
    method PlaceInTried(nId: nat, nKBucket: nat, ghost info: map<nat, Info>, ghost news: seq<set<nat>>)
      requires Leaving(nId, info, news) && nKBucket == TriedBucket(network, nKey, info[nId])
      requires |vvTried[nKBucket]| < TRIED_BUCKET_SIZE
      modifies `mapInfo, `vvTried, `nTried
      ensures Consistent() && Promoted(info, mapInfo, nId, {})
    {
      ghost var tried := vvTried;
      vvTried := vvTried[nKBucket := vvTried[nKBucket] + [nId]];
      nTried := nTried + 1;
      mapInfo := mapInfo[nId := mapInfo[nId].(inTried := true)];
      Overwritten(info, nId, info[nId].(refCount := 0), nId, info[nId], mapInfo[nId]);
      PromoteWithRoom(network, nKey, nIdCount, info, mapAddr, vRandom, tried, news, vvNew, nId, mapInfo, nKBucket,
                      nNew, nTried - 1);
    }

    /** A full tried bucket exchanges an entry for it, which goes back to a new bucket with room. */
    method ReplaceInTried(nId: nat, nKBucket: nat, nOrigin: nat)
      returns (nOld: nat, ghost pos: nat, ghost shuffled: seq<nat>, ghost b: nat)
      requires nId in mapInfo && nKBucket < |vvTried| && vvTried[nKBucket] != []
      requires forall i, j :: 0 <= i < j < |vvTried[nKBucket]| ==> vvTried[nKBucket][i] != vvTried[nKBucket][j]
      requires forall x :: x in vvTried[nKBucket] ==> x in mapInfo && x != nId
      requires |vvNew| == NEW_BUCKET_COUNT && nOrigin < NEW_BUCKET_COUNT && |vvNew[nOrigin]| < NEW_BUCKET_SIZE
      modifies `mapInfo, `vvTried, `vvNew, `nNew
      ensures Shuffled(old(vvTried[nKBucket]), shuffled) && pos < |shuffled| && nOld == shuffled[pos]
              && nOld in old(mapInfo)
      ensures vvTried == old(vvTried)[nKBucket := shuffled[pos := nId]]
      ensures b == Home(network, nKey, old(mapInfo[nOld]), old(vvNew), nOrigin)
      ensures |old(vvNew[b])| < NEW_BUCKET_SIZE && vvNew == old(vvNew)[b := old(vvNew[b]) + {nOld}]
      ensures nNew == old(nNew) + 1 && nOld != nId
      ensures mapInfo == old(mapInfo)[nOld := old(mapInfo[nOld]).(inTried := false, refCount := 1)]
                                     [nId := old(mapInfo[nId]).(inTried := true)]
    {
      var vTried, nPos := SelectPosition(mapInfo, vvTried[nKBucket]);
      shuffled, pos := vTried, nPos;
      nOld := vTried[nPos];
      assert nOld in vTried;
      var nUBucket := NewBucket(network, nKey, mapInfo[nOld], mapInfo[nOld].source);
      mapInfo := mapInfo[nOld := mapInfo[nOld].(inTried := false, refCount := 1)];
      if |vvNew[nUBucket]| < NEW_BUCKET_SIZE {
        vvNew := vvNew[nUBucket := vvNew[nUBucket] + {nOld}];
        b := nUBucket;
      } else {
        vvNew := vvNew[nOrigin := vvNew[nOrigin] + {nOld}];
        b := nOrigin;
      }
      nNew := nNew + 1;
      vvTried := vvTried[nKBucket := vTried[nPos := nId]];
      mapInfo := mapInfo[nId := mapInfo[nId].(inTried := true)];
    }

    method ExchangeInTried(nId: nat, nKBucket: nat, nOrigin: nat, ghost info: map<nat, Info>, ghost news: seq<set<nat>>)
      returns (ghost nOld: nat)
      requires Leaving(nId, info, news) && nKBucket == TriedBucket(network, nKey, info[nId])
      requires vvTried[nKBucket] != [] && nOrigin < NEW_BUCKET_COUNT && |vvNew[nOrigin]| < NEW_BUCKET_SIZE
      modifies `mapInfo, `vvTried, `vvNew, `nNew
      ensures Consistent() && Promoted(info, mapInfo, nId, {nOld}) && nOld in old(vvTried[nKBucket])
      ensures SentHome(network, nKey, info[nOld], news, vvNew, nId, nOld, nOrigin)
    {
      ghost var tried, purged := vvTried, vvNew;
      assert TriedBucketOk(network, nKey, info, vvTried[nKBucket], nKBucket);
      var old1;
      ghost var pos, shuffled, b;
      old1, pos, shuffled, b := ReplaceInTried(nId, nKBucket, nOrigin);
      nOld := old1;
      CameHome(network, nKey, info[nOld], news, purged, nId, nOld, nOrigin, b);
      Overwritten(info, nId, info[nId].(refCount := 0), nOld, mapInfo[nOld], mapInfo[nId]);
      PromoteByExchange(network, nKey, nIdCount, info, mapAddr, vRandom, tried, news, purged, nId, mapInfo, nKBucket,
                        shuffled, pos, nOld, b, nNew, nTried);
    }

    /** An entry leaves the new table. */
    method Depart(nId: nat, nOrigin: nat)
      requires Consistent() && nOrigin < NEW_BUCKET_COUNT && nId in vvNew[nOrigin]
      modifies `mapInfo, `vvNew, `nNew
      ensures Leaving(nId, old(mapInfo), old(vvNew)) && |vvNew[nOrigin]| < NEW_BUCKET_SIZE
    {
      OccurrencesPositive(vvNew, nId);
      assert RefOk(mapInfo[nId], Occurrences(vvNew, nId));
      Purge(nId);
      nNew := nNew - 1;
    }

    /** Moves an entry from the new buckets to its tried bucket. */
    method MakeTried(nId: nat, nOrigin: nat) returns (ghost others: set<nat>)
      requires Consistent() && nOrigin < NEW_BUCKET_COUNT && nId in vvNew[nOrigin]
      modifies `mapInfo, `vvNew, `nNew, `nTried, `vvTried
      ensures Consistent()
      ensures Promoted(old(mapInfo), mapInfo, nId, others)
      ensures MovedBack(network, nKey, old(mapInfo), old(vvTried), old(vvNew), vvNew, nId, nOrigin, others)
    {
      ghost var info, news := mapInfo, vvNew;
      Depart(nId, nOrigin);
      var nKBucket := TriedBucket(network, nKey, mapInfo[nId]);
      if |vvTried[nKBucket]| < TRIED_BUCKET_SIZE {
        others := {};
        PlaceInTried(nId, nKBucket, info, news);
      } else {
        ghost var nOld := ExchangeInTried(nId, nKBucket, nOrigin, info, news);
        others := {nOld};
      }
    }

    method Find(net: NetAddr) returns (found: bool, nId: nat)
      requires AddrOk(mapInfo, mapAddr)
      ensures found <==> net in mapAddr
      ensures found ==> nId == mapAddr[net] && nId in mapInfo && mapInfo[nId].Net() == net
    {
      found := net in mapAddr && mapAddr[net] in mapInfo;
      nId := if found then mapAddr[net] else 0;
    }

    /** Replaces the statistics of an entry. */
    method Update(nId: nat, e: Info)
      requires Consistent() && nId in mapInfo && e.addr.service == mapInfo[nId].addr.service
      requires e.refCount == mapInfo[nId].refCount && e.inTried == mapInfo[nId].inTried
      requires e.randomPos == mapInfo[nId].randomPos
      modifies `mapInfo
      ensures Consistent() && mapInfo == old(mapInfo)[nId := e]
    {
      Touched(mapInfo, nId, e, mapAddr, vRandom, nIdCount);
      Retouched(network, nKey, mapInfo, nId, e, vvTried, vvNew);
      mapInfo := mapInfo[nId := e];
    }

    /** Finds a new bucket that holds an entry, from a random one on. */
    method FindBucket(nId: nat, nRnd: nat) returns (nUBucket: int)
      requires |vvNew| == NEW_BUCKET_COUNT
      ensures if exists b :: 0 <= b < NEW_BUCKET_COUNT && nId in vvNew[b]
              then 0 <= nUBucket < NEW_BUCKET_COUNT && nId in vvNew[nUBucket] else nUBucket == -1
    {
      nUBucket := -1;
      var start := nRnd % |vvNew|;
      for n := 0 to |vvNew|
        invariant forall b :: 0 <= b < NEW_BUCKET_COUNT && nId in vvNew[b] ==> n <= Offset(start, b)
      {
        var nB := (n + start) % |vvNew|;
        if nId in vvNew[nB] {
          return nB;
        }
        assert forall b :: 0 <= b < NEW_BUCKET_COUNT && Offset(start, b) == n ==> b == nB;
      }
    }

    /** The address to be marked is known, with the same port. */
    ghost predicate Knows(addr: Service)
      requires AddrOk(mapInfo, mapAddr)
      reads this
    {
      addr.net in mapAddr && mapInfo[mapAddr[addr.net]].addr.service == addr
    }

    /** Moves an entry to the tried table unless it is there already. */
    method Promote(nId: nat, nRnd: nat) returns (ghost others: set<nat>)
      requires Consistent() && nId in mapInfo
      modifies `mapInfo, `vvNew, `nNew, `nTried, `vvTried
      ensures Consistent()
      ensures if old(mapInfo[nId].inTried) then mapInfo == old(mapInfo) && others == {}
              else Promoted(old(mapInfo), mapInfo, nId, others) && |others| <= 1
    {
      others := {};
      if mapInfo[nId].inTried {
        return;
      }
      assert RefOk(mapInfo[nId], Occurrences(vvNew, nId));
      OccurrencesPositive(vvNew, nId);
      var nUBucket := FindBucket(nId, nRnd);
      assert nUBucket != -1; // the exit for an entry without a bucket is never taken
      others := MakeTried(nId, nUBucket);
    }

    /** Marks an entry good: it is moved to the tried table. */
    method Good(addr: Service, nTime: int, nRnd: nat) returns (ghost others: set<nat>)
      requires Consistent()
      modifies `mapInfo, `vvNew, `nNew, `nTried, `vvTried
      ensures Consistent()
      ensures if old(Knows(addr)) then MarkedGood(old(mapInfo), mapInfo, mapAddr[addr.net], nTime, others)
              else unchanged(this)
      ensures nTime > 0 && old(TimesOk(mapInfo)) ==> TimesOk(mapInfo)
    {
      others := {};
      var found, nId := Find(addr.net);
      if !found || mapInfo[nId].addr.service != addr {
        return;
      }
      ghost var was := mapInfo;
      Update(nId, Succeeded(mapInfo[nId], nTime));
      ghost var mid := mapInfo;
      others := Promote(nId, nRnd);
      GoodPromoted(was, mid, mapInfo, nId, nTime, others);
    }

    method Attempt(addr: Service, nTime: int)
      requires Consistent()
      modifies `mapInfo
      ensures Consistent()
      ensures !old(Knows(addr)) ==> unchanged(this)
      ensures old(Knows(addr)) ==>
              var nId := mapAddr[addr.net];
              var e := old(mapInfo[nId]);
              mapInfo == old(mapInfo)[nId := e.(lastTry := nTime, attempts := e.attempts + 1)]
      ensures nTime >= 0 && old(TimesOk(mapInfo)) ==> TimesOk(mapInfo)
    {
      var found, nId := Find(addr.net);
      if !found || mapInfo[nId].addr.service != addr {
        return;
      }
      Update(nId, mapInfo[nId].(lastTry := nTime, attempts := mapInfo[nId].attempts + 1));
    }

    method Connected(addr: Service, nTime: int)
      requires Consistent()
      modifies `mapInfo
      ensures Consistent()
      ensures !old(Knows(addr)) ==> unchanged(this)
      ensures old(Knows(addr)) ==>
              var nId := mapAddr[addr.net];
              var e := old(mapInfo[nId]);
              mapInfo == if nTime - e.addr.time > 20 * 60
                         then old(mapInfo)[nId := e.(addr := e.addr.(time := U32(nTime)))] else old(mapInfo)
      ensures old(TimesOk(mapInfo)) ==> TimesOk(mapInfo)
    {
      var found, nId := Find(addr.net);
      if !found || mapInfo[nId].addr.service != addr {
        return;
      }
      var e := mapInfo[nId];
      if nTime - e.addr.time > 20 * 60 {
        Update(nId, e.(addr := e.addr.(time := U32(nTime))));
      }
    }

    method AddReference(nId: nat)
      requires ConsistentBut(nId) && nId in mapInfo && !mapInfo[nId].inTried
      modifies `mapInfo
      ensures ConsistentBut(nId)
      ensures mapInfo == old(mapInfo)[nId := old(mapInfo[nId]).(refCount := old(mapInfo[nId].refCount) + 1)]
    {
      var e := mapInfo[nId].(refCount := mapInfo[nId].refCount + 1);
      Touched(mapInfo, nId, e, mapAddr, vRandom, nIdCount);
      TriedFrame(network, nKey, mapInfo, mapInfo[nId := e], vvTried, {nId});
      CountKept(mapInfo, mapInfo[nId := e], nId);
      mapInfo := mapInfo[nId := e];
    }

    /** Drops an entry from a new bucket if it is full. */
    method MakeRoom(nUBucket: nat, now: int, rnd: seq<nat>, ghost nId: nat) returns (ghost victims: set<nat>)
      requires ConsistentBut(nId) && nUBucket < NEW_BUCKET_COUNT && |rnd| == 4 && nId in mapInfo
      requires nId !in vvNew[nUBucket]
      modifies `mapInfo, `mapAddr, `vRandom, `nNew, `vvNew
      ensures ConsistentBut(nId) && nId !in vvNew[nUBucket] && |vvNew[nUBucket]| < NEW_BUCKET_SIZE
      ensures Occurrences(vvNew, nId) == Occurrences(old(vvNew), nId)
      ensures nId in mapInfo && SameEntry(mapInfo[nId], old(mapInfo[nId]))
      ensures Agree(old(mapInfo), mapInfo, victims) && Lowered(old(mapInfo), mapInfo, victims) && nId !in victims
      ensures if old(|vvNew[nUBucket]|) < NEW_BUCKET_SIZE then victims == {}
              else exists x :: victims == {x} && IsVictim(old(mapInfo), old(vvNew[nUBucket]), now, rnd, x)
    {
      victims := {};
      if |vvNew[nUBucket]| == NEW_BUCKET_SIZE {
        ghost var news, info := vvNew, mapInfo;
        var r;
        ghost var victim;
        r, victim := ShrinkNew(nUBucket, now, rnd, nId);
        victims := {victim};
        OccurrencesBelow(news, nUBucket, victim, nId);
        assert nId in info.Keys - {victim};
      }
    }

    method Insert(nId: nat, nUBucket: nat)
      requires ConsistentBut(nId) && nUBucket < NEW_BUCKET_COUNT
      requires nId !in vvNew[nUBucket] && |vvNew[nUBucket]| < NEW_BUCKET_SIZE
      requires nId in mapInfo && !mapInfo[nId].inTried
      requires mapInfo[nId].refCount == Occurrences(vvNew, nId) + 1 <= NEW_BUCKETS_PER_ADDRESS
      modifies `vvNew
      ensures Consistent() && vvNew == old(vvNew)[nUBucket := old(vvNew[nUBucket]) + {nId}]
    {
      Inserted(mapInfo, vvNew, nUBucket, nId);
      vvNew := vvNew[nUBucket := vvNew[nUBucket] + {nId}];
    }

    /** Puts an entry into a new bucket, which first makes room if it is full. */
    method AddToBucket(nId: nat, nUBucket: nat, now: int, rnd: seq<nat>) returns (ghost victims: set<nat>)
      requires ConsistentBut(nId) && nUBucket < NEW_BUCKET_COUNT && |rnd| == 4 && nId in mapInfo
      requires !mapInfo[nId].inTried
      requires mapInfo[nId].refCount == Occurrences(vvNew, nId) < NEW_BUCKETS_PER_ADDRESS
      modifies `mapInfo, `mapAddr, `vRandom, `nNew, `vvNew
      ensures Consistent() && nId in mapInfo && nId in vvNew[nUBucket]
      ensures mapInfo[nId] == old(mapInfo[nId]).(randomPos := mapInfo[nId].randomPos, refCount := mapInfo[nId].refCount)
      ensures nId !in victims && Agree(old(mapInfo), mapInfo, {nId} + victims)
              && Lowered(old(mapInfo), mapInfo, victims)
      ensures if nId in old(vvNew[nUBucket]) || old(|vvNew[nUBucket]|) < NEW_BUCKET_SIZE then victims == {}
              else exists x :: victims == {x} && x in old(vvNew[nUBucket])
    {
      victims := {};
      OccurrencesPositive(vvNew, nId);
      if nId in vvNew[nUBucket] {
        return;
      }
      ghost var was := mapInfo;
      AddReference(nId);
      ghost var mid := mapInfo;
      victims := MakeRoom(nUBucket, now, rnd, nId);
      AgreeWiden(mid, mapInfo, {nId}, victims);
      AgreeThrough(was, mid, mapInfo, nId, victims);
      Insert(nId, nUBucket);
    }

    /** A known address is seen again: its entry is refreshed, and may get another reference. */
    method Resight(nId: nat, addr: Address, nTimePenalty: int, now: int, coin: nat) returns (proceed: bool)
      requires Consistent() && nId in mapInfo
      modifies `mapInfo
      ensures Consistent() && mapInfo == old(mapInfo)[nId := Refreshed(old(mapInfo[nId]), addr, now, nTimePenalty)]
      ensures proceed <==> WorthAnother(mapInfo[nId], addr, coin)
    {
      Update(nId, Refreshed(mapInfo[nId], addr, now, nTimePenalty));
      var e := mapInfo[nId];
      assert RefOk(e, Occurrences(vvNew, nId));
      if addr.time == 0 || (e.addr.time != 0 && addr.time <= e.addr.time) {
        return false;
      }
      if e.inTried {
        return false;
      }
      if e.refCount == NEW_BUCKETS_PER_ADDRESS {
        return false;
      }
      var nFactor := Factor(e.refCount);
      proceed := !(nFactor > 1 && coin % nFactor != 0);
    }

    /** An unknown address gets an entry, which is not yet in any bucket. */
    method CreateNew(addr: Address, source: NetAddr, nTimePenalty: int) returns (nId: nat)
      requires Consistent() && addr.service.net !in mapAddr
      modifies `nIdCount, `mapInfo, `mapAddr, `vRandom, `nNew
      ensures ConsistentBut(nId) && nId !in old(mapInfo)
      ensures mapInfo == old(mapInfo)[nId := Info(addr.(time := U32(Penalised(addr.time, nTimePenalty))), source, 0,
                                                  0, 0, 0, false, old(|vRandom|))]
      ensures mapAddr == old(mapAddr)[addr.service.net := nId]
      ensures Occurrences(vvNew, nId) == 0
    {
      ghost var was := mapInfo;
      nId := Create(addr, source);
      var e := mapInfo[nId];
      var e' := e.(addr := e.addr.(time := U32(Penalised(e.addr.time, nTimePenalty))));
      Touched(mapInfo, nId, e', mapAddr, vRandom, nIdCount);
      Overwritten(was, nId, e, nId, e, e');
      mapInfo := mapInfo[nId := e'];
      nNew := nNew + 1;
      CreatedIndexes(network, nKey, was, nId, e', vvTried, vvNew);
      UnusedId(was, vvNew, nId);
    }

    /** The state after adding a routable address to the entries was. */
    ghost predicate Added(was: map<nat, Info>, addr: Address, source: NetAddr, nTimePenalty: int, now: int, coin: nat,
                          victims: set<nat>)
      reads this
    {
      && addr.service.net in mapAddr && mapAddr[addr.service.net] in mapInfo
      && var nId := mapAddr[addr.service.net];
      && var e := mapInfo[nId];
      && nId !in victims && |victims| <= 1
      && Agree(was, mapInfo, {nId} + victims) && Lowered(was, mapInfo, victims)
      && e == Sighted(was, nId, addr, source, nTimePenalty, now).(refCount := e.refCount, randomPos := e.randomPos)
      && |vvNew| == NEW_BUCKET_COUNT
      && (nId !in was || WorthAnother(Refreshed(was[nId], addr, now, nTimePenalty), addr, coin) ==>
            nId in vvNew[NewBucket(network, nKey, e, source)])
    }

    method AddKnown(nId: nat, addr: Address, source: NetAddr, nTimePenalty: int, now: int, coin: nat, rnd: seq<nat>)
      returns (ghost victims: set<nat>)
      requires Consistent() && |rnd| == 4 && addr.service.net in mapAddr && nId == mapAddr[addr.service.net]
      modifies `mapInfo, `mapAddr, `vRandom, `nNew, `vvNew
      ensures Consistent() && Added(old(mapInfo), addr, source, nTimePenalty, now, coin, victims)
    {
      victims := {};
      ghost var was := mapInfo;
      var proceed := Resight(nId, addr, nTimePenalty, now, coin);
      ghost var mid := mapInfo;
      if !proceed {
        AgreeThrough(was, mid, mid, nId, {});
        return;
      }
      assert RefOk(mapInfo[nId], Occurrences(vvNew, nId));
      victims := AddToBucket(nId, NewBucket(network, nKey, mapInfo[nId], source), now, rnd);
      AgreeThrough(was, mid, mapInfo, nId, victims);
      assert mapInfo[nId].Net() == addr.service.net;
      assert mapAddr[addr.service.net] == nId;
    }

    method AddUnknown(addr: Address, source: NetAddr, nTimePenalty: int, now: int, coin: nat, rnd: seq<nat>)
      returns (ghost victims: set<nat>)
      requires Consistent() && |rnd| == 4 && addr.service.net !in mapAddr
      modifies `nIdCount, `mapInfo, `mapAddr, `vRandom, `nNew, `vvNew
      ensures Consistent() && Added(old(mapInfo), addr, source, nTimePenalty, now, coin, victims)
    {
      ghost var was := mapInfo;
      var nId := CreateNew(addr, source, nTimePenalty);
      ghost var mid := mapInfo;
      victims := AddToBucket(nId, NewBucket(network, nKey, mapInfo[nId], source), now, rnd);
      AgreeThrough(was, mid, mapInfo, nId, victims);
      assert mapInfo[nId].Net() == addr.service.net;
      assert mapAddr[addr.service.net] == nId;
    }

    /**
     Adds an address. It is reported as new exactly if it is routable and was
     not known; at most one other entry loses a reference, one that was in the
     bucket the address goes to.
     */
    method Add(addr: Address, source: NetAddr, nTimePenalty: int, now: int, coin: nat, rnd: seq<nat>)
      returns (fNew: bool, ghost victims: set<nat>)
      requires Consistent() && |rnd| == 4
      modifies `nIdCount, `mapInfo, `mapAddr, `vRandom, `nNew, `vvNew
      ensures Consistent()
      ensures fNew <==> network.routable(addr.service.net) && addr.service.net !in old(mapAddr)
      ensures if network.routable(addr.service.net)
              then Added(old(mapInfo), addr, source, nTimePenalty, now, coin, victims) else unchanged(this)
      ensures old(TimesOk(mapInfo)) ==> TimesOk(mapInfo)
    {
      ghost var was := mapInfo;
      fNew, victims := false, {};
      if !network.routable(addr.service.net) {
        return;
      }
      var found, nId := Find(addr.service.net);
      if found {
        victims := AddKnown(nId, addr, source, nTimePenalty, now, coin, rnd);
      } else {
        victims := AddUnknown(addr, source, nTimePenalty, now, coin, rnd);
        fNew := true;
      }
      if TimesOk(was) {
        SightedTimes(was, mapInfo, mapAddr[addr.service.net], addr, source, nTimePenalty, now, victims);
      }
    }

    method Sample(nNodes: nat) returns (vAddr: seq<Address>)
      requires RandomOk(mapInfo, vRandom) && nNodes <= |vRandom|
      modifies `mapInfo, `vRandom
      ensures RandomOk(mapInfo, vRandom) && |vRandom| == old(|vRandom|)
      ensures mapInfo.Keys == old(mapInfo.Keys) && Agree(old(mapInfo), mapInfo, {})
      ensures |vAddr| == nNodes && forall i :: 0 <= i < nNodes ==> vAddr[i] == mapInfo[vRandom[i]].addr
    {
      ghost var was := mapInfo;
      vAddr := [];
      for n := 0 to nNodes
        invariant |vRandom| == old(|vRandom|) && RandomOk(mapInfo, vRandom)
        invariant mapInfo.Keys == was.Keys && Agree(was, mapInfo, {})
        invariant |vAddr| == n
        invariant forall i :: 0 <= i < n ==> vAddr[i] == mapInfo[vRandom[i]].addr
      {
        var nRndPos :| n <= nRndPos < |vRandom|;
        ghost var info, random := mapInfo, vRandom;
        SwapRandom(n, nRndPos);
        AgreeTransitive(was, info, mapInfo, {}, {});
        Sampled(info, random, mapInfo, vRandom, vAddr, n, nRndPos);
        vAddr := vAddr + [mapInfo[vRandom[n]].addr];
      }
    }

    /** A random sample of the addresses, each entry at most once. */
    method GetAddr() returns (vAddr: seq<Address>, ghost ids: seq<nat>)
      requires Consistent()
      modifies `mapInfo, `vRandom
      ensures Consistent() && mapInfo.Keys == old(mapInfo.Keys) && Agree(old(mapInfo), mapInfo, {})
      ensures |vAddr| == |ids| == SampleSize(old(|vRandom|))
      ensures forall i :: 0 <= i < |ids| ==> ids[i] in mapInfo && vAddr[i] == mapInfo[ids[i]].addr
      ensures forall i, j :: 0 <= i < j < |ids| ==> ids[i] != ids[j]
    {
      var nNodes := GETADDR_MAX_PCT * |vRandom| / 100;
      if nNodes > GETADDR_MAX {
        nNodes := GETADDR_MAX;
      }
      ghost var was := mapInfo;
      vAddr := Sample(nNodes);
      ids := vRandom[..nNodes];
      Shuffling(was, mapInfo, network, nKey, nIdCount, mapAddr, vvTried, vvNew);
    }

    method Perform(call: Call)
      requires Consistent()
      modifies this
      ensures Consistent()
      ensures TimePositive(call) && old(TimesOk(mapInfo)) ==> TimesOk(mapInfo)
    {
      match call
      case CallAdd(addr, source, penalty, now, coin, r0, r1, r2, r3) =>
        var fNew;
        ghost var victims;
        fNew, victims := Add(addr, source, penalty, now, coin, [r0, r1, r2, r3]);
      case CallGood(service, time, rnd) =>
        ghost var others := Good(service, time, rnd);
      case CallAttempt(service, time) =>
        Attempt(service, time);
      case CallConnected(service, time) =>
        Connected(service, time);
      case CallGetAddr =>
        var vAddr;
        ghost var ids;
        ghost var was := mapInfo;
        vAddr, ids := GetAddr();
        if TimesOk(was) {
          ShuffledTimes(was, mapInfo);
        }
    }

    /** Any run of calls leaves the indexes consistent and the number of entries bounded. */
    method Run(calls: seq<Call>)
      requires Consistent()
      modifies this
      ensures Consistent()
      ensures |vRandom| == |mapInfo| == nTried + nNew
      ensures 0 <= nTried <= TRIED_BUCKET_COUNT * TRIED_BUCKET_SIZE && 0 <= nNew <= NEW_BUCKET_COUNT * NEW_BUCKET_SIZE
      ensures old(TimesOk(mapInfo)) && (forall i :: 0 <= i < |calls| ==> TimePositive(calls[i])) ==> TimesOk(mapInfo)
    {
      for i := 0 to |calls|
        invariant Consistent()
        invariant old(TimesOk(mapInfo)) && (forall k :: 0 <= k < i ==> TimePositive(calls[k])) ==> TimesOk(mapInfo)
      {
        Perform(calls[i]);
      }
      RandomSize(mapInfo, vRandom);
      EntriesBounded(network, nKey, mapInfo, vvTried, vvNew);
    }
  }
}
