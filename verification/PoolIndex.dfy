/** The pool's indexes: entries by transaction id, spenders by outpoint, and the admission order they
    stand for. */
module PoolIndex {
  import opened Types
  import opened Codec
  import opened Utxo
  import opened Pool

  type Entries = map<Hash, MempoolEntry>

  type Spends = map<OutPoint, Hash>

  // ---- entries and their order ----

  ghost predicate EntryOk(id: Hash, entry: MempoolEntry) {
    && Id(entry) == id && !IsCoinbase(entry.tx) && Structural(entry.tx) && InputsDiffer(entry.tx)
    && entry.size == SerializedSize(entry.tx)
  }

  ghost predicate ByAdmission(order: seq<MempoolEntry>) {
    forall i, j | 0 <= i < j < |order| :: order[i].seqNo < order[j].seqNo
  }

  /** The list holds exactly the entries, each once, by increasing admission number below the next one. */
  ghost predicate Listed(entries: Entries, order: seq<MempoolEntry>, nextSeq: nat) {
    && |order| == |entries|
    && Indexed(entries, order, nextSeq)
    && Present(entries, order)
    && ByAdmission(order)
  }

  ghost predicate Indexed(entries: Entries, order: seq<MempoolEntry>, nextSeq: nat) {
    forall e | e in order :: Id(e) in entries && entries[Id(e)] == e && e.seqNo < nextSeq
  }

  ghost predicate Present(entries: Entries, order: seq<MempoolEntry>) {
    forall id | id in entries :: entries[id] in order && EntryOk(id, entries[id])
  }

  /** The sum of the sizes. */
  function TotalSize(order: seq<MempoolEntry>): nat {
    if order == [] then 0 else TotalSize(order[..|order| - 1]) + order[|order| - 1].size
  }

  lemma BytesSnoc(order: seq<MempoolEntry>, e: MempoolEntry)
    ensures TotalSize(order + [e]) == TotalSize(order) + e.size
  {
    assert (order + [e])[..|order|] == order;
  }

  lemma ByAdmissionPrefix(order: seq<MempoolEntry>)
    requires order != [] && ByAdmission(order)
    ensures ByAdmission(order[..|order| - 1])
    ensures forall e | e in order[..|order| - 1] :: e.seqNo < order[|order| - 1].seqNo
  {
  }

  lemma ByAdmissionSnoc(order: seq<MempoolEntry>, e: MempoolEntry)
    requires ByAdmission(order) && forall f | f in order :: f.seqNo < e.seqNo
    ensures ByAdmission(order + [e])
  {
  }

  lemma {:induction false} KeepByAdmission(order: seq<MempoolEntry>, gone: set<Hash>)
    requires ByAdmission(order)
    ensures ByAdmission(Keep(order, gone))
  {
    hide Id, ByAdmission;
    if order == [] {
      NothingByAdmission();
    } else {
      var n := |order| - 1;
      ByAdmissionPrefix(order);
      KeepByAdmission(order[..n], gone);
      KeepContents(order[..n], gone);
      if Id(order[n]) !in gone {
        ByAdmissionSnoc(Keep(order[..n], gone), order[n]);
      }
    }
  }

  lemma NothingByAdmission()
    ensures ByAdmission([])
  {
  }

  /** Removing the one entry of an id takes off one entry and its size. */
  lemma {:induction false} KeepWithoutOne(order: seq<MempoolEntry>, e: MempoolEntry)
    requires ByAdmission(order) && e in order && forall f | f in order && Id(f) == Id(e) :: f == e
    ensures |Keep(order, {Id(e)})| == |order| - 1
    ensures TotalSize(Keep(order, {Id(e)})) == TotalSize(order) - e.size
  {
    hide Id, ByAdmission;
    var n := |order| - 1;
    var before := order[..n];
    assert order == before + [order[n]];
    ByAdmissionPrefix(order);
    if order[n] == e {
      assert e !in before;
      KeepAll(before, {Id(e)}) by {
        forall f | f in before ensures Id(f) !in {Id(e)} { assert f in order; }
      }
    } else {
      assert forall f | f in before :: f in order;
      KeepWithoutOne(before, e);
      BytesSnoc(Keep(before, {Id(e)}), order[n]);
    }
  }

  lemma EntriesWithout(entries: Entries, id: Hash)
    requires id in entries
    ensures |entries - {id}| == |entries| - 1
  {
    assert (entries - {id}).Keys == entries.Keys - {id};
    assert |entries - {id}| == |(entries - {id}).Keys| && |entries| == |entries.Keys|;
  }

  lemma EntriesWith(entries: Entries, id: Hash, e: MempoolEntry)
    requires id !in entries
    ensures |entries[id := e]| == |entries| + 1
  {
    assert entries[id := e].Keys == entries.Keys + {id};
    assert |entries[id := e]| == |entries[id := e].Keys| && |entries| == |entries.Keys|;
  }

  lemma ListedWithout(entries: Entries, order: seq<MempoolEntry>, nextSeq: nat, id: Hash)
    requires Listed(entries, order, nextSeq) && id in entries
    ensures Listed(entries - {id}, Keep(order, {id}), nextSeq)
    ensures TotalSize(Keep(order, {id})) == TotalSize(order) - entries[id].size
  {
    hide Id, ByAdmission, EntryOk;
    var e := entries[id];
    assert Id(e) == id by { ListedHasId(entries, order, nextSeq, id); }
    KeepWithoutOne(order, e);
    KeepContents(order, {id});
    KeepByAdmission(order, {id});
    EntriesWithout(entries, id);
    forall k | k in entries - {id}
      ensures (entries - {id})[k] in Keep(order, {id})
    {
      ListedHasId(entries, order, nextSeq, k);
    }
  }

  lemma ListedHasId(entries: Entries, order: seq<MempoolEntry>, nextSeq: nat, id: Hash)
    requires Listed(entries, order, nextSeq) && id in entries
    ensures Id(entries[id]) == id && entries[id] in order && EntryOk(id, entries[id])
  {
    hide Id, ByAdmission, Structural, InputsDiffer;
  }

  lemma IndexedWith(entries: Entries, order: seq<MempoolEntry>, nextSeq: nat, e: MempoolEntry)
    requires Indexed(entries, order, nextSeq) && Id(e) !in entries && e.seqNo == nextSeq
    ensures Indexed(entries[Id(e) := e], order + [e], nextSeq + 1)
    ensures forall f | f in order :: f.seqNo < e.seqNo
  {
    hide Id;
  }

  lemma PresentWith(entries: Entries, order: seq<MempoolEntry>, e: MempoolEntry)
    requires Present(entries, order) && EntryOk(Id(e), e)
    ensures Present(entries[Id(e) := e], order + [e])
  {
    hide Id, EntryOk;
    var longer := order + [e];
    assert longer[|order|] == e;
    assert forall f | f in order :: f in longer;
  }

  lemma ListedWith(entries: Entries, order: seq<MempoolEntry>, nextSeq: nat, e: MempoolEntry)
    requires Listed(entries, order, nextSeq) && EntryOk(Id(e), e) && Id(e) !in entries && e.seqNo == nextSeq
    ensures Listed(entries[Id(e) := e], order + [e], nextSeq + 1)
    ensures TotalSize(order + [e]) == TotalSize(order) + e.size
  {
    hide Id, ByAdmission, EntryOk, Indexed, Present, TotalSize;
    BytesSnoc(order, e);
    IndexedWith(entries, order, nextSeq, e);
    PresentWith(entries, order, e);
    ByAdmissionSnoc(order, e);
    EntriesWith(entries, Id(e), e);
  }

  lemma {:induction false} KeepNone(pool: seq<MempoolEntry>)
    ensures Keep(pool, {}) == pool
    ensures Keep(pool, set id | id in []) == pool
  {
    KeepAll(pool, {});
    assert (set id: Hash | id in []) == {};
  }

  lemma RemovedMore(entries: Entries, order: seq<MempoolEntry>, gone: set<Hash>, more: set<Hash>)
    ensures entries - gone - more == entries - (gone + more)
    ensures Keep(Keep(order, gone), more) == Keep(order, gone + more)
  {
    hide Keep;
    KeepTwice(order, gone, more);
  }

  lemma KeepUnlisted(entries: Entries, order: seq<MempoolEntry>, nextSeq: nat, gone: set<Hash>)
    requires Listed(entries, order, nextSeq) && gone !! entries.Keys
    ensures Keep(order, gone) == order && entries - gone == entries
  {
    hide Id, ByAdmission, EntryOk;
    KeepAll(order, gone);
  }

  // ---- spends ----

  /** The entry of this id spends the outpoint. */
  ghost predicate Claims(entries: Entries, id: Hash, o: OutPoint) {
    id in entries && o in OutPoints(entries[id].tx.inputs)
  }

  /** The spend index is the exact inverse of the entries' inputs. */
  ghost predicate SpendsExact(spends: Spends, entries: Entries) {
    && (forall o | o in spends :: Claims(entries, spends[o], o))
    && (forall id, o | Claims(entries, id, o) :: o in spends && spends[o] == id)
  }

  lemma SpendsWithout(spends: Spends, entries: Entries, id: Hash)
    requires SpendsExact(spends, entries)
    ensures SpendsExact(map o | o in spends && spends[o] != id :: spends[o], entries - {id})
  {
    hide OutPoints;
    var left := map o | o in spends && spends[o] != id :: spends[o];
    forall o | o in left
      ensures Claims(entries - {id}, left[o], o)
    {
      assert Claims(entries, spends[o], o);
    }
    forall k, o | Claims(entries - {id}, k, o)
      ensures o in left && left[o] == k
    {
      assert Claims(entries, k, o);
    }
  }

  /** The spend index with one transaction's inputs added. */
  ghost predicate SpendsAdded(before: Spends, after: Spends, points: set<OutPoint>, id: Hash) {
    && after.Keys == before.Keys + points
    && forall o | o in after :: after[o] == if o in points then id else before[o]
  }

  lemma NothingClaimed(spends: Spends, inputs: seq<TxInput>, id: Hash)
    ensures SpendsAdded(spends, spends, OutPoints(inputs[..0]), id)
  {
    assert OutPoints(inputs[..0]) == {};
  }

  lemma OneClaimed(before: Spends, spends: Spends, inputs: seq<TxInput>, i: nat, id: Hash)
    requires i < |inputs| && SpendsAdded(before, spends, OutPoints(inputs[..i]), id)
    ensures SpendsAdded(before, spends[OutPointOf(inputs[i]) := id], OutPoints(inputs[..i + 1]), id)
  {
    assert inputs[..i + 1] == inputs[..i] + [inputs[i]];
    assert OutPoints(inputs[..i + 1]) == OutPoints(inputs[..i]) + {OutPointOf(inputs[i])};
    hide OutPoints;
  }

  lemma EntryHasId(id: Hash, entry: MempoolEntry)
    requires EntryOk(id, entry)
    ensures Id(entry) == id
  {
    hide Txid, Structural, InputsDiffer, IsCoinbase;
  }

  lemma SpendsWith(before: Spends, after: Spends, entries: Entries, e: MempoolEntry)
    requires SpendsExact(before, entries) && Id(e) !in entries
    requires OutPoints(e.tx.inputs) !! before.Keys && SpendsAdded(before, after, OutPoints(e.tx.inputs), Id(e))
    ensures SpendsExact(after, entries[Id(e) := e])
  {
    hide OutPoints, Id;
    var longer := entries[Id(e) := e];
    forall o | o in after
      ensures Claims(longer, after[o], o)
    {
      if o !in OutPoints(e.tx.inputs) {
        assert Claims(entries, before[o], o);
      }
    }
    forall k, o | Claims(longer, k, o)
      ensures o in after && after[o] == k
    {
      if k != Id(e) {
        assert Claims(entries, k, o);
      }
    }
  }

  // ---- descendants ----

  /** Contains every entry that spends an output of the root or of a member. */
  ghost predicate HoldsChildren(spends: Spends, root: Hash, s: set<Hash>) {
    forall o | o in spends && (o.txid == root || o.txid in s) :: spends[o] in s
  }

  /** The entries reachable from the root by spending: the least set that holds all children. */
  ghost predicate Descendants(spends: Spends, root: Hash, s: set<Hash>) {
    HoldsChildren(spends, root, s) && forall t | HoldsChildren(spends, root, t) :: s <= t
  }

  /** Contains every entry that spends an output of the root or of a member. */
  ghost predicate HoldsChildrenOf(entries: Entries, root: Hash, s: set<Hash>) {
    forall id, o | Claims(entries, id, o) && (o.txid == root || o.txid in s) :: id in s
  }

  ghost predicate InEvery(entries: Entries, root: Hash, id: Hash) {
    forall t | HoldsChildrenOf(entries, root, t) :: id in t
  }

  /** The descendants of the root among the entries. */
  ghost function DescendantSet(entries: Entries, root: Hash): set<Hash> {
    set id | id in entries && InEvery(entries, root, id)
  }

  /** The root with its descendants. */
  ghost function Family(entries: Entries, root: Hash): set<Hash> {
    {root} + DescendantSet(entries, root)
  }

  lemma ChildrenBySpends(spends: Spends, entries: Entries, root: Hash, t: set<Hash>)
    requires SpendsExact(spends, entries)
    ensures HoldsChildren(spends, root, t) <==> HoldsChildrenOf(entries, root, t)
  {
    if HoldsChildrenOf(entries, root, t) {
      forall o | o in spends && (o.txid == root || o.txid in t)
        ensures spends[o] in t
      {
        assert Claims(entries, spends[o], o);
      }
    }
  }

  /** What the spend index gives as descendants are the descendants. */
  lemma DescendantsBySpends(spends: Spends, entries: Entries, root: Hash, s: set<Hash>)
    requires SpendsExact(spends, entries) && Descendants(spends, root, s) && s <= entries.Keys
    ensures s == DescendantSet(entries, root)
  {
    hide SpendsExact, HoldsChildren, HoldsChildrenOf;
    forall t
      ensures HoldsChildren(spends, root, t) <==> HoldsChildrenOf(entries, root, t)
    {
      ChildrenBySpends(spends, entries, root, t);
    }
    forall id | id in s
      ensures InEvery(entries, root, id)
    {
    }
  }

  lemma DescendantSetHolds(entries: Entries, root: Hash)
    ensures HoldsChildrenOf(entries, root, DescendantSet(entries, root))
  {
    hide OutPoints;
    var s := DescendantSet(entries, root);
    forall id, o | Claims(entries, id, o) && (o.txid == root || o.txid in s)
      ensures InEvery(entries, root, id)
    {
      forall t | HoldsChildrenOf(entries, root, t)
        ensures id in t
      {
      }
    }
  }

  /** Removing an entry with its descendants leaves nothing that leans on what is gone. */
  lemma FamilyClosed(entries: Entries, order: seq<MempoolEntry>, nextSeq: nat, root: Hash)
    requires Listed(entries, order, nextSeq)
    ensures Closed(order, Family(entries, root), {})
  {
    hide OutPoints, Id, ByAdmission, EntryOk, DescendantSet;
    DescendantSetHolds(entries, root);
    var family := Family(entries, root);
    forall e, o | e in order && o in OutPoints(e.tx.inputs) && o.txid in family
      ensures Id(e) in family
    {
      assert Claims(entries, Id(e), o);
    }
  }

  // ---- eviction ----

  /** The entry with the lowest fee rate, the oldest among equals. */
  ghost predicate Lowest(entries: Entries, id: Hash) {
    id in entries && forall k | k in entries :: NotAfter(entries[id], entries[k])
  }

  predicate NotAfter(a: MempoolEntry, b: MempoolEntry) {
    a.feeRate < b.feeRate || (a.feeRate == b.feeRate && a.seqNo <= b.seqNo)
  }

  /** In numbers: every other entry pays more, or as much and was admitted later. */
  lemma LowestPlainly(entries: Entries, order: seq<MempoolEntry>, nextSeq: nat, low: Hash)
    requires Listed(entries, order, nextSeq)
    ensures Lowest(entries, low) <==>
      && low in entries
      && forall k | k in entries && k != low ::
           || entries[k].feeRate > entries[low].feeRate
           || (entries[k].feeRate == entries[low].feeRate && entries[k].seqNo > entries[low].seqNo)
  {
    hide Id, EntryOk, Listed;
    if low in entries {
      forall k | k in entries && k != low
        ensures entries[k].seqNo != entries[low].seqNo
      {
        NumbersDiffer(entries, order, nextSeq, k, low);
      }
    }
  }

  lemma NumbersDiffer(entries: Entries, order: seq<MempoolEntry>, nextSeq: nat, a: Hash, b: Hash)
    requires Listed(entries, order, nextSeq) && a in entries && b in entries && a != b
    ensures entries[a].seqNo != entries[b].seqNo
  {
    hide Id, EntryOk, Indexed, Present;
    ListedHasId(entries, order, nextSeq, a);
    ListedHasId(entries, order, nextSeq, b);
    var i :| 0 <= i < |order| && order[i] == entries[a];
    var j :| 0 <= j < |order| && order[j] == entries[b];
  }

  lemma {:induction false} LowestExists(entries: Entries, ids: set<Hash>) returns (low: Hash)
    requires ids != {} && ids <= entries.Keys
    ensures low in ids && forall k | k in ids :: NotAfter(entries[low], entries[k])
    decreases ids
  {
    var first :| first in ids;
    low := first;
    var rest := ids - {first};
    assert forall k | k in ids :: k == first || k in rest;
    if rest != {} {
      var other := LowestExists(entries, rest);
      if !NotAfter(entries[low], entries[other]) {
        low := other;
      }
    }
  }

  lemma SomeLowest(entries: Entries)
    requires entries != map[]
    ensures exists low :: Lowest(entries, low)
  {
    var any :| any in entries;
    var low := LowestExists(entries, entries.Keys);
    assert Lowest(entries, low);
  }

  ghost function LowestOf(entries: Entries): (low: Hash)
    requires entries != map[]
    ensures Lowest(entries, low)
  {
    SomeLowest(entries);
    var low :| Lowest(entries, low);
    low
  }

  /** Admission numbers differ, so there is one lowest entry. */
  lemma LowestUnique(entries: Entries, order: seq<MempoolEntry>, nextSeq: nat, a: Hash, b: Hash)
    requires Listed(entries, order, nextSeq) && Lowest(entries, a) && Lowest(entries, b)
    ensures a == b
  {
    hide Id, EntryOk, Indexed, Present;
    ListedHasId(entries, order, nextSeq, a);
    ListedHasId(entries, order, nextSeq, b);
    var i :| 0 <= i < |order| && order[i] == entries[a];
    var j :| 0 <= j < |order| && order[j] == entries[b];
    assert NotAfter(entries[a], entries[b]) && NotAfter(entries[b], entries[a]);
    assert i == j;
  }

  datatype MempoolLimits = MempoolLimits(maxTxCount: nat, maxBytes: nat)

  /** The pool: its entries, their order, and the next admission number. */
  datatype PoolState = PoolState(entries: Entries, order: seq<MempoolEntry>, nextSeq: nat)

  /** One more entry of this size would break a limit. */
  predicate Exceeds(limits: MempoolLimits, order: seq<MempoolEntry>, size: nat) {
    |order| + 1 > limits.maxTxCount || TotalSize(order) + size > limits.maxBytes
  }

  /** A newcomer asking for room of this size at this fee rate. */
  datatype Request = Request(limits: MempoolLimits, size: nat, rate: nat)

  lemma FewerEntries(before: Entries, after: Entries, id: Hash)
    requires id in before && id !in after && after.Keys <= before.Keys
    ensures |after| < |before|
  {
    assert after.Keys <= before.Keys - {id};
    SubsetSize(after.Keys, before.Keys - {id});
    assert |after| == |after.Keys| && |before| == |before.Keys|;
  }

  lemma {:induction false} SubsetSize<T>(a: set<T>, b: set<T>)
    requires a <= b
    ensures |a| <= |b|
  {
    if a != {} {
      var x :| x in a;
      SubsetSize(a - {x}, b - {x});
    }
  }

  /** What has to go for a newcomer: as long as there is no room for it, the lowest entry with its
      descendants, unless that entry has a higher fee rate than the newcomer. */
  ghost function Victims(entries: Entries, order: seq<MempoolEntry>, request: Request): (gone: set<Hash>)
    ensures gone <= entries.Keys
    decreases |entries|
  {
    if !Exceeds(request.limits, order, request.size) || entries == map[] then {}
    else
      var low := LowestOf(entries);
      if entries[low].feeRate > request.rate then {}
      else
        var family := Family(entries, low);
        FewerEntries(entries, entries - family, low);
        family + Victims(entries - family, Keep(order, family), request)
  }

  lemma VictimsStep(entries: Entries, order: seq<MempoolEntry>, nextSeq: nat, request: Request, low: Hash)
    requires Listed(entries, order, nextSeq) && Exceeds(request.limits, order, request.size)
    requires Lowest(entries, low) && low in entries && entries[low].feeRate <= request.rate
    ensures var family := Family(entries, low);
      Victims(entries, order, request) == family + Victims(entries - family, Keep(order, family), request)
  {
    hide Lowest, Family, Keep, Exceeds, Listed;
    LowestUnique(entries, order, nextSeq, low, LowestOf(entries));
  }

  lemma VictimsNone(entries: Entries, order: seq<MempoolEntry>, request: Request)
    requires !Exceeds(request.limits, order, request.size) || Outranked(entries, request.rate)
    ensures Victims(entries, order, request) == {}
  {
    hide Exceeds, Family, Keep;
    if entries != map[] && Exceeds(request.limits, order, request.size) {
      var low :| Lowest(entries, low) && entries[low].feeRate > request.rate;
      assert NotAfter(entries[low], entries[LowestOf(entries)]);
    }
  }

  /** There is no entry, or the lowest has a fee rate above the newcomer's. */
  ghost predicate Outranked(entries: Entries, rate: nat) {
    entries == map[] || exists low | Lowest(entries, low) :: entries[low].feeRate > rate
  }

  /** Part of the victims have gone; the rest are the victims of what is left. */
  ghost predicate MakingRoom(first: Entries, firstOrder: seq<MempoolEntry>, entries: Entries, order: seq<MempoolEntry>,
                             gone: set<Hash>, request: Request) {
    && entries == first - gone && order == Keep(firstOrder, gone)
    && Victims(first, firstOrder, request) == gone + Victims(entries, order, request)
  }

  lemma MakingRoomStart(entries: Entries, order: seq<MempoolEntry>, request: Request)
    ensures MakingRoom(entries, order, entries, order, {}, request)
  {
    hide Victims, Keep;
    KeepNone(order);
  }

  lemma MakingRoomStep(first: Entries, firstOrder: seq<MempoolEntry>, entries: Entries, order: seq<MempoolEntry>,
                       nextSeq: nat, gone: set<Hash>, request: Request, low: Hash)
    requires MakingRoom(first, firstOrder, entries, order, gone, request) && Listed(entries, order, nextSeq)
    requires Exceeds(request.limits, order, request.size)
    requires Lowest(entries, low) && low in entries && entries[low].feeRate <= request.rate
    ensures var family := Family(entries, low);
      && MakingRoom(first, firstOrder, entries - family, Keep(order, family), gone + family, request)
      && |entries - family| < |entries|
  {
    hide Victims, Keep, Listed, Exceeds, Lowest, DescendantSet;
    var family := Family(entries, low);
    VictimsStep(entries, order, nextSeq, request, low);
    LowestInFamily(entries, low);
    RemovedMore(first, firstOrder, gone, family);
    FewerEntries(entries, entries - family, low);
    var rest := Victims(entries - family, Keep(order, family), request);
    assert gone + (family + rest) == gone + family + rest;
  }

  lemma MakingRoomEnd(first: Entries, firstOrder: seq<MempoolEntry>, entries: Entries, order: seq<MempoolEntry>,
                      gone: set<Hash>, request: Request)
    requires MakingRoom(first, firstOrder, entries, order, gone, request)
    requires !Exceeds(request.limits, order, request.size) || Outranked(entries, request.rate)
    ensures gone == Victims(first, firstOrder, request)
    ensures entries == first - gone && order == Keep(firstOrder, gone)
  {
    hide Victims, Keep, Exceeds, Outranked;
    VictimsNone(entries, order, request);
  }

  lemma {:induction false} ListedKeep(entries: Entries, order: seq<MempoolEntry>, nextSeq: nat, gone: set<Hash>)
    requires Listed(entries, order, nextSeq) && gone <= entries.Keys
    ensures Listed(entries - gone, Keep(order, gone), nextSeq)
    decreases gone
  {
    hide Listed, Keep;
    if gone == {} {
      KeepNone(order);
      assert entries - gone == entries;
    } else {
      var id :| id in gone;
      var rest := gone - {id};
      ListedKeep(entries, order, nextSeq, rest);
      ListedWithout(entries - rest, Keep(order, rest), nextSeq, id);
      RemovedMore(entries, order, rest, {id});
      assert rest + {id} == gone;
    }
  }

  lemma NothingGoneIsClosed(order: seq<MempoolEntry>)
    ensures Closed(order, {}, {})
  {
  }

  /** Closed removals compose. */
  lemma ClosedMore(order: seq<MempoolEntry>, gone: set<Hash>, more: set<Hash>)
    requires Closed(order, gone, {}) && Closed(Keep(order, gone), more, {})
    ensures Closed(order, gone + more, {})
  {
    hide Id, Keep, OutPoints;
    KeepContents(order, gone);
  }

  /** Nothing that stays leans on a victim. */
  lemma {:induction false} VictimsClosed(entries: Entries, order: seq<MempoolEntry>, nextSeq: nat, request: Request)
    requires Listed(entries, order, nextSeq)
    ensures Closed(order, Victims(entries, order, request), {})
    decreases |entries|
  {
    hide Listed, Closed, Family, Keep, Exceeds, Lowest;
    NothingGoneIsClosed(order);
    if Exceeds(request.limits, order, request.size) && entries != map[] {
      var low := LowestOf(entries);
      LowestInFamily(entries, low);
      if entries[low].feeRate <= request.rate {
        var family := Family(entries, low);
        FamilyClosed(entries, order, nextSeq, low);
        ListedKeep(entries, order, nextSeq, family);
        FewerEntries(entries, entries - family, low);
        VictimsClosed(entries - family, Keep(order, family), nextSeq, request);
        ClosedMore(order, family, Victims(entries - family, Keep(order, family), request));
      }
    }
  }

  lemma LowestInFamily(entries: Entries, low: Hash)
    requires Lowest(entries, low)
    ensures low in entries && low in Family(entries, low) && Family(entries, low) <= entries.Keys
  {
  }

  /** Why an entry is evicted: when the ones in `gone` had left, the newcomer still broke a limit; of the entries
      then left, the root pays least and no more than the newcomer, and is the oldest of those that pay as
      little; and this entry is the root or descends from it. */
  ghost predicate EvictedWith(entries: Entries, order: seq<MempoolEntry>, request: Request, id: Hash,
                              gone: set<Hash>, root: Hash) {
    && id !in gone && root in entries && root !in gone && id in Family(entries - gone, root)
    && (|Keep(order, gone)| + 1 > request.limits.maxTxCount
        || TotalSize(Keep(order, gone)) + request.size > request.limits.maxBytes)
    && entries[root].feeRate <= request.rate
    && forall k | k in entries && k !in gone && k != root ::
         || entries[k].feeRate > entries[root].feeRate
         || (entries[k].feeRate == entries[root].feeRate && entries[k].seqNo > entries[root].seqNo)
  }

  lemma FirstEviction(entries: Entries, order: seq<MempoolEntry>, nextSeq: nat, request: Request, id: Hash)
    requires Listed(entries, order, nextSeq) && entries != map[] && Exceeds(request.limits, order, request.size)
    requires entries[LowestOf(entries)].feeRate <= request.rate && id in Family(entries, LowestOf(entries))
    ensures EvictedWith(entries, order, request, id, {}, LowestOf(entries))
  {
    hide Listed, Keep, TotalSize, Lowest;
    KeepNone(order);
    assert entries - {} == entries;
    LowestPlainly(entries, order, nextSeq, LowestOf(entries));
  }

  lemma LaterEviction(entries: Entries, order: seq<MempoolEntry>, request: Request, id: Hash, family: set<Hash>,
                      gone: set<Hash>, root: Hash)
    requires EvictedWith(entries - family, Keep(order, family), request, id, gone, root) && id !in family
    ensures EvictedWith(entries, order, request, id, family + gone, root)
  {
    hide Keep, TotalSize, DescendantSet;
    RemovedMore(entries, order, family, gone);
  }

  /** Every victim has such a reason, in terms of victims alone. */
  lemma {:induction false} VictimsHaveReason(entries: Entries, order: seq<MempoolEntry>, nextSeq: nat, request: Request,
                                             id: Hash) returns (gone: set<Hash>, root: Hash)
    requires Listed(entries, order, nextSeq) && id in Victims(entries, order, request)
    ensures gone + {root} <= Victims(entries, order, request) && EvictedWith(entries, order, request, id, gone, root)
    decreases |entries|
  {
    hide Listed, Family, Keep, Exceeds, Lowest, EvictedWith;
    var low := LowestOf(entries);
    var family := Family(entries, low);
    LowestInFamily(entries, low);
    if id in family {
      gone, root := {}, low;
      FirstEviction(entries, order, nextSeq, request, id);
    } else {
      ListedKeep(entries, order, nextSeq, family);
      FewerEntries(entries, entries - family, low);
      gone, root := VictimsHaveReason(entries - family, Keep(order, family), nextSeq, request, id);
      LaterEviction(entries, order, request, id, family, gone, root);
      gone := family + gone;
    }
  }

  lemma VictimsUnfold(entries: Entries, order: seq<MempoolEntry>, request: Request)
    requires Exceeds(request.limits, order, request.size) && entries != map[]
    requires entries[LowestOf(entries)].feeRate <= request.rate
    ensures var family := Family(entries, LowestOf(entries));
      Victims(entries, order, request) == family + Victims(entries - family, Keep(order, family), request)
  {
    hide Family, Keep, Exceeds, Lowest;
  }

  /** When the victims have gone, the newcomer fits or every entry left pays more than it. */
  lemma {:induction false} VictimsSuffice(entries: Entries, order: seq<MempoolEntry>, request: Request)
    ensures var gone := Victims(entries, order, request);
      || (|Keep(order, gone)| + 1 <= request.limits.maxTxCount
          && TotalSize(Keep(order, gone)) + request.size <= request.limits.maxBytes)
      || forall k | k in entries && k !in gone :: entries[k].feeRate > request.rate
    decreases |entries|
  {
    hide Family, Keep, TotalSize;
    KeepNone(order);
    if Exceeds(request.limits, order, request.size) && entries != map[] {
      var low := LowestOf(entries);
      if entries[low].feeRate <= request.rate {
        var family := Family(entries, low);
        LowestInFamily(entries, low);
        FewerEntries(entries, entries - family, low);
        VictimsSuffice(entries - family, Keep(order, family), request);
        VictimsUnfold(entries, order, request);
        RemovedMore(entries, order, family, Victims(entries - family, Keep(order, family), request));
      }
    }
  }

  // ---- who is spared ----

  /** Holds with every member that is in the pool the parents it has there. */
  ghost predicate HoldsParents(entries: Entries, a: set<Hash>) {
    forall id, o | id in a && Claims(entries, id, o) && o.txid in entries :: o.txid in a
  }

  ghost predicate AllAbove(entries: Entries, a: set<Hash>, rate: nat) {
    forall id | id in a && id in entries :: entries[id].feeRate > rate
  }

  lemma DescendantsOutside(entries: Entries, root: Hash, a: set<Hash>)
    requires HoldsParents(entries, a) && root in entries && root !in a
    ensures DescendantSet(entries, root) !! a
  {
    hide OutPoints;
    var s := DescendantSet(entries, root);
    DescendantSetHolds(entries, root);
    forall id, o | Claims(entries, id, o) && (o.txid == root || o.txid in s - a)
      ensures id in s - a
    {
    }
    assert HoldsChildrenOf(entries, root, s - a);
    forall id | id in s
      ensures id !in a
    {
      assert InEvery(entries, root, id);
    }
  }

  /** No entry is evicted whose fee rate and whose ancestors' fee rates are all above the newcomer's. */
  lemma {:induction false} VictimsSpare(entries: Entries, order: seq<MempoolEntry>, request: Request, a: set<Hash>)
    requires HoldsParents(entries, a) && AllAbove(entries, a, request.rate)
    ensures Victims(entries, order, request) !! a
    decreases |entries|
  {
    hide DescendantSet, Keep, Exceeds, OutPoints;
    if Exceeds(request.limits, order, request.size) && entries != map[] {
      var low := LowestOf(entries);
      if entries[low].feeRate <= request.rate {
        var family := Family(entries, low);
        DescendantsOutside(entries, low, a);
        FewerEntries(entries, entries - family, low);
        FewerKeepsAncestors(entries, family, a, request.rate);
        VictimsSpare(entries - family, Keep(order, family), request, a);
      }
    }
  }

  lemma FewerKeepsAncestors(entries: Entries, gone: set<Hash>, a: set<Hash>, rate: nat)
    requires HoldsParents(entries, a) && AllAbove(entries, a, rate)
    ensures HoldsParents(entries - gone, a) && AllAbove(entries - gone, a, rate)
  {
    hide OutPoints;
    forall id, o | id in a && Claims(entries - gone, id, o) && o.txid in entries - gone
      ensures o.txid in a
    {
      assert Claims(entries, id, o);
    }
  }

  // ---- conflicts with a block ----

  /** Contains the block's transactions and every entry that spends what the block spends or an output of a
      member. */
  ghost predicate HoldsConflicts(entries: Entries, txs: seq<Transaction>, s: set<Hash>) {
    && BlockIds(txs) <= s
    && forall id, o | Claims(entries, id, o) && (o in BlockSpends(txs) || o.txid in s) :: id in s
  }

  /** The least such set. */
  ghost predicate Conflicts(entries: Entries, txs: seq<Transaction>, s: set<Hash>) {
    HoldsConflicts(entries, txs, s) && forall t | HoldsConflicts(entries, txs, t) :: s <= t
  }

  lemma ConflictsClosed(entries: Entries, order: seq<MempoolEntry>, nextSeq: nat, txs: seq<Transaction>, s: set<Hash>)
    requires Listed(entries, order, nextSeq) && HoldsConflicts(entries, txs, s)
    ensures Closed(order, s, BlockSpends(txs))
  {
    hide OutPoints, Id, ByAdmission, EntryOk, BlockSpends, BlockIds;
    forall e, o | e in order && o in OutPoints(e.tx.inputs) && (o.txid in s || o in BlockSpends(txs))
      ensures Id(e) in s
    {
      assert Claims(entries, Id(e), o);
    }
  }

  // ---- the sorted listing ----

  /** The ids that are still to be listed are those of the order from position n on. */
  ghost predicate Unlisted(entries: Entries, order: seq<MempoolEntry>, n: nat, rest: set<Hash>) {
    n <= |order| && rest <= entries.Keys && forall e :: e in order[n..] <==> (Id(e) in rest && entries[Id(e)] == e)
  }

  lemma StartsUnlisted(entries: Entries, order: seq<MempoolEntry>, nextSeq: nat)
    requires Listed(entries, order, nextSeq)
    ensures Unlisted(entries, order, 0, entries.Keys)
  {
    hide Id, EntryOk, ByAdmission;
    assert order[0..] == order;
    forall e | Id(e) in entries.Keys && entries[Id(e)] == e
      ensures e in order
    {
      ListedHasId(entries, order, nextSeq, Id(e));
    }
  }

  lemma NextListed(entries: Entries, order: seq<MempoolEntry>, nextSeq: nat, n: nat, rest: set<Hash>, id: Hash)
    requires Listed(entries, order, nextSeq) && Unlisted(entries, order, n, rest) && id in rest
    requires forall k | k in rest :: entries[id].seqNo <= entries[k].seqNo
    ensures n < |order| && order[n] == entries[id]
    ensures Unlisted(entries, order, n + 1, rest - {id})
  {
    hide Id, EntryOk, Indexed, Present;
    ListedHasId(entries, order, nextSeq, id);
    assert entries[id] in order[n..];
    var k :| n <= k < |order| && order[k] == entries[id];
    assert order[n] == order[n..][0];
    assert order[n] in order[n..];
    assert Id(order[n]) in rest;
    forall e
      ensures e in order[n + 1..] <==> e in order[n..] && e != order[n]
    {
      if e in order[n + 1..] {
        var j :| n + 1 <= j < |order| && order[j] == e;
        assert order[n..][j - n] == e;
      }
    }
    forall e | e in order[n..] && Id(e) == id
      ensures e == order[n]
    {
    }
  }

  lemma HasMember(pool: seq<MempoolEntry>)
    requires pool != []
    ensures exists e :: e in pool
  {
    assert pool[0] in pool;
  }

  lemma AllListed(entries: Entries, order: seq<MempoolEntry>, n: nat)
    requires Unlisted(entries, order, n, {})
    ensures n == |order| && order[..n] == order
  {
    hide Id;
    if order[n..] != [] {
      HasMember(order[n..]);
      assert false;
    }
  }

  // ---- the greedy replay in steps ----

  ghost predicate AmongIds(ids: seq<Hash>, pool: seq<MempoolEntry>) {
    forall id | id in ids :: exists e | e in pool :: Id(e) == id
  }

  /** The rejected ids of the first i entries: removing them is what the greedy replay does. */
  ghost predicate GreedyUpTo(m: Utxos, order: seq<MempoolEntry>, i: nat, invalid: seq<Hash>) {
    && i <= |order| && AmongIds(invalid, order[..i])
    && Keep(order[..i], set id | id in invalid) == Greedy(m, order[..i])
    && (invalid == [] <==> Greedy(m, order[..i]) == order[..i])
  }

  lemma GreedyStart(m: Utxos, order: seq<MempoolEntry>)
    ensures GreedyUpTo(m, order, 0, []) && Greedy(m, order[..0]) == [] && PoolView(m, []) == m
  {
    assert order[..0] == [];
  }

  lemma GreedyEnd(m: Utxos, order: seq<MempoolEntry>, invalid: seq<Hash>)
    requires GreedyUpTo(m, order, |order|, invalid)
    ensures Keep(order, set id | id in invalid) == Greedy(m, order)
    ensures invalid == [] <==> Greedy(m, order) == order
  {
    assert order[..|order|] == order;
  }

  lemma {:induction false} KeepSame(pool: seq<MempoolEntry>, gone: set<Hash>, id: Hash)
    requires forall e | e in pool :: Id(e) != id
    ensures Keep(pool, gone + {id}) == Keep(pool, gone)
  {
    hide Id;
    if pool != [] {
      var n := |pool| - 1;
      assert pool[n] in pool && forall e | e in pool[..n] :: e in pool;
      KeepSame(pool[..n], gone, id);
    }
  }

  lemma IdsDiffer(entries: Entries, order: seq<MempoolEntry>, nextSeq: nat, i: nat)
    requires Listed(entries, order, nextSeq) && i < |order|
    ensures Id(order[i]) in entries && forall e | e in order[..i] :: Id(e) != Id(order[i])
  {
    hide Id, EntryOk, Present;
    assert order[i] in order;
    forall e | e in order[..i]
      ensures Id(e) != Id(order[i])
    {
      assert e in order && e.seqNo < order[i].seqNo;
    }
  }

  lemma GreedySnoc(m: Utxos, pool: seq<MempoolEntry>, last: MempoolEntry)
    ensures Greedy(m, pool + [last]) ==
      if ValidFor(PoolView(m, Greedy(m, pool)), last.tx) then Greedy(m, pool) + [last] else Greedy(m, pool)
  {
    hide ValidFor, PoolView;
    assert (pool + [last])[..|pool|] == pool;
  }

  /** The entry is valid after those kept so far: it is kept. */
  lemma GreedyKeeps(m: Utxos, before: seq<MempoolEntry>, last: MempoolEntry, invalid: seq<Hash>)
    requires AmongIds(invalid, before) && Keep(before, set id | id in invalid) == Greedy(m, before)
    requires (invalid == [] <==> Greedy(m, before) == before) && Id(last) !in invalid
    requires ValidFor(PoolView(m, Greedy(m, before)), last.tx)
    ensures var pool := before + [last];
      && AmongIds(invalid, pool) && Keep(pool, set id | id in invalid) == Greedy(m, pool)
      && (invalid == [] <==> Greedy(m, pool) == pool) && Greedy(m, pool) == Greedy(m, before) + [last]
  {
    hide ValidFor, PoolView, Id, Keep, Greedy;
    GreedySnoc(m, before, last);
    KeepSnoc(before, last, set id | id in invalid);
    assert forall e | e in before :: e in before + [last];
    if Greedy(m, before) + [last] == before + [last] {
      assert (Greedy(m, before) + [last])[..|Greedy(m, before)|] == Greedy(m, before);
      assert (before + [last])[..|before|] == before;
    }
  }

  /** The entry is not valid after those kept so far: its id joins the rejected ones. */
  lemma GreedyDrops(m: Utxos, before: seq<MempoolEntry>, last: MempoolEntry, invalid: seq<Hash>)
    requires AmongIds(invalid, before) && Keep(before, set id | id in invalid) == Greedy(m, before)
    requires forall e | e in before :: Id(e) != Id(last)
    requires !ValidFor(PoolView(m, Greedy(m, before)), last.tx)
    ensures var pool := before + [last]; var more := invalid + [Id(last)];
      && AmongIds(more, pool) && Keep(pool, set id | id in more) == Greedy(m, pool)
      && Greedy(m, pool) != pool && Greedy(m, pool) == Greedy(m, before)
  {
    hide ValidFor, PoolView, Id, Keep, Greedy;
    var gone := set id | id in invalid;
    GreedySnoc(m, before, last);
    GreedyReplayable(m, before);
    assert (set id | id in invalid + [Id(last)]) == gone + {Id(last)};
    KeepSnoc(before, last, gone + {Id(last)});
    KeepSame(before, gone, Id(last));
    assert forall e | e in before :: e in before + [last];
    assert last in before + [last];
  }

  lemma GreedyNext(m: Utxos, entries: Entries, order: seq<MempoolEntry>, nextSeq: nat, i: nat, invalid: seq<Hash>)
    requires Listed(entries, order, nextSeq) && i < |order| && GreedyUpTo(m, order, i, invalid)
    ensures
      if ValidFor(PoolView(m, Greedy(m, order[..i])), order[i].tx) then
        && GreedyUpTo(m, order, i + 1, invalid)
        && Greedy(m, order[..i + 1]) == Greedy(m, order[..i]) + [order[i]]
      else
        && GreedyUpTo(m, order, i + 1, invalid + [Id(order[i])])
        && Greedy(m, order[..i + 1]) == Greedy(m, order[..i])
  {
    hide ValidFor, PoolView, Id, Listed, Keep, Greedy;
    IdsDiffer(entries, order, nextSeq, i);
    var before, last := order[..i], order[i];
    assert order[..i + 1] == before + [last];
    if ValidFor(PoolView(m, Greedy(m, before)), last.tx) {
      GreedyKeeps(m, before, last, invalid);
    } else {
      GreedyDrops(m, before, last, invalid);
    }
  }
}
