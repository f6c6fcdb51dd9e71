/**
 * The switcher's table of pending ICMP echoes and its acknowledgement-id
 * counter (ppp/app/client/VEthernetNetworkSwitcher.cpp).
 *
 * An echo the switcher answers itself is parked under an ack id in
 * [1, MaxAckId] until the exchanger acknowledges it or it expires. The id is
 * taken by walking a 32-bit counter upwards from its last value, wrapping to
 * 0 past MaxAckId, and skipping ids that are taken. This module states which
 * id that walk reaches and what the expiry sweep keeps.
 */
module IcmpTable {
  import opened Text
  import opened Net

  /** `max_icmppackets_aid`, (1 << 24) - 1. */
  const MaxAckId: int := 0xFF_FFFF

  /** `++` on the counter, wrapping at the ends of the 32-bit range. */
  function Increment(x: Int32): (r: Int32)
    ensures (r - x - 1) % 0x1_0000_0000 == 0
    ensures x < Int32Max ==> r == x + 1
  {
    if x == Int32Max then Int32Min else x + 1
  }

  /**
   * The counter after one turn of the allocation loop: incremented, and put
   * back to 0 when it leaves [1, MaxAckId] (lines 346-355).
   */
  function Advance(c: Int32): (r: Int32)
    ensures 0 <= r <= MaxAckId
    ensures r == if 0 <= c < MaxAckId then c + 1 else 0
  {
    var n := Increment(c);
    if n < 1 || n > MaxAckId then 0 else n
  }

  /** A pending echo: when it expires, and the datagram to answer (`VEthernetIcmpPacket`). */
  datatype PendingPacket = PendingPacket(datetime: nat, packet: IpFrame)

  type Table = map<int, PendingPacket>

  predicate IdsInRange(t: Table) {
    forall id :: id in t ==> 1 <= id <= MaxAckId
  }

  // ------------------------------------------------------------ the next id

  /** The last counter value before the ids that can be reached without wrapping. */
  function Start(c: int): int {
    if 0 <= c < MaxAckId then c else MaxAckId
  }

  /**
   * `id` is the id the allocation loop hands out for table `t` and counter
   * `c`: a free id in range, and either every id from the counter up to it is
   * taken, or every id above the counter is taken and so is every id below it.
   */
  ghost predicate IsNextAckId(t: Table, c: int, id: int) {
    && 1 <= id <= MaxAckId && id !in t
    && ((Start(c) < id && forall k :: Start(c) < k < id ==> k in t)
        || ((forall k :: Start(c) < k <= MaxAckId ==> k in t)
            && forall k :: 1 <= k < id ==> k in t))
  }

  /** The smallest free id in (lo, MaxAckId], if any. */
  function FirstFreeAbove(t: Table, lo: nat): (r: Option<int>)
    ensures r.Some? ==> lo < r.value <= MaxAckId && r.value !in t
    ensures r.Some? ==> forall k :: lo < k < r.value ==> k in t
    ensures r.None? ==> forall k :: lo < k <= MaxAckId ==> k in t
    decreases MaxAckId - lo
  {
    if lo >= MaxAckId then None
    else if lo + 1 !in t then Some(lo + 1)
    else FirstFreeAbove(t, lo + 1)
  }

  /** The integers in [lo, hi). */
  function Range(lo: int, hi: int): (s: set<int>)
    ensures forall k :: k in s <==> lo <= k < hi
    ensures |s| == if lo <= hi then hi - lo else 0
    decreases hi - lo
  {
    if lo >= hi then {} else Range(lo, hi - 1) + {hi - 1}
  }

  /** A table holding fewer than MaxAckId ids in range leaves one free. */
  lemma FreeIdExists(t: Table)
    requires IdsInRange(t) && |t| < MaxAckId
    ensures exists id :: 1 <= id <= MaxAckId && id !in t
  {
    if forall id :: 1 <= id <= MaxAckId ==> id in t {
      var ids := Range(1, MaxAckId + 1);
      assert ids <= t.Keys;
      SubsetSize(ids, t.Keys);
      assert false;
    }
  }

  lemma SubsetSize(a: set<int>, b: set<int>)
    requires a <= b
    ensures |a| <= |b|
  {
    assert b == a + (b - a);
  }

  /** The id the allocation loop hands out. */
  function NextAckId(t: Table, c: int): (id: int)
    requires IdsInRange(t) && |t| < MaxAckId
    ensures IsNextAckId(t, c, id)
  {
    match FirstFreeAbove(t, Start(c))
    case Some(id) => id
    case None =>
      FreeIdExists(t);
      var r := FirstFreeAbove(t, 0);
      assert r.Some?;
      r.value
  }

  /** At most one id fits the description. */
  lemma NextAckIdUnique(t: Table, c: int, a: int, b: int)
    requires IsNextAckId(t, c, a) && IsNextAckId(t, c, b)
    ensures a == b
  {
  }

  /** Parking an echo under the next id keeps every id in range and adds one entry. */
  lemma ParkKeepsRange(t: Table, c: int, e: PendingPacket)
    requires IdsInRange(t) && |t| < MaxAckId
    ensures var id := NextAckId(t, c);
            IdsInRange(t[id := e]) && |t[id := e]| == |t| + 1 && id !in t
  {
  }

  // ----------------------------------------------- the loop's measure

  /**
   * How many turns of the allocation loop separate counter value `c` from
   * reaching `f`, an id in [1, MaxAckId].
   */
  function WalkDistance(c: int, f: int): (d: nat)
    requires 1 <= f <= MaxAckId
    ensures 1 <= d <= MaxAckId + 1
  {
    if 0 <= c < f then f - c
    else if f <= c <= MaxAckId then MaxAckId - c + 1 + f
    else 1 + f
  }

  /** Each turn of the loop brings the counter one step nearer to `f`. */
  lemma AdvanceNears(c: Int32, f: int)
    requires 1 <= f <= MaxAckId
    ensures WalkDistance(c, f) == 1 ==> Advance(c) == f
    ensures WalkDistance(c, f) >= 2 ==> Advance(c) != f && WalkDistance(Advance(c), f) == WalkDistance(c, f) - 1
  {
  }

  /** The ids the walk from `c` meets before `f` are exactly those nearer to `f` than `c`. */
  lemma NextAckIdByDistance(t: Table, c: Int32, f: int)
    requires IsNextAckId(t, c, f)
    ensures forall k :: 1 <= k <= MaxAckId && WalkDistance(k, f) < WalkDistance(c, f) ==> k in t
  {
    forall k | 1 <= k <= MaxAckId && WalkDistance(k, f) < WalkDistance(c, f) ensures k in t {
      if Start(c) < f && forall j :: Start(c) < j < f ==> j in t {
        assert Start(c) < k < f;
      } else {
        assert Start(c) < k <= MaxAckId || 1 <= k < f;
      }
    }
  }

  // ------------------------------------------------------------ removal

  /**
   * `ERORTE`'s removal (lines 250-262): id 0 and a missing id give nothing;
   * otherwise the entry's datagram and the table without it.
   */
  function Take(t: Table, id: int): (r: Option<(IpFrame, Table)>)
    ensures r.Some? <==> id != 0 && id in t
    ensures r.Some? ==> r.value.0 == t[id].packet && id !in r.value.1
    ensures r.Some? ==> |r.value.1| == |t| - 1 && forall k :: k in r.value.1 <==> k in t && k != id
  {
    if id != 0 && id in t then Some((t[id].packet, t - {id})) else None
  }

  /** An id is answered at most once: taking it again finds nothing. */
  lemma TakeOnce(t: Table, id: int)
    requires Take(t, id).Some?
    ensures Take(Take(t, id).value.1, id).None?
  {
  }

  // ------------------------------------------------------------ expiry

  /** A set of ids with no member is empty. */
  lemma NoIdEmpty(ids: set<int>)
    requires forall id :: id !in ids
    ensures ids == {}
  {
    assert forall id :: id in ids <==> id in {};
  }

  /** Some id of a non-empty set; the order in which the table is walked is not modelled. */
  method AnyId(ids: set<int>) returns (id: int)
    requires ids != {}
    ensures id in ids
  {
    if forall k :: k !in ids {
      NoIdEmpty(ids);
      assert false;
    }
    id :| id in ids;
  }

  /** The table after `OnTick` at time `now`: the entries that expire later (lines 93-105). */
  function Swept(t: Table, now: nat): (r: Table)
    ensures forall id :: id in r <==> id in t && t[id].datetime > now
    ensures forall id :: id in r ==> r[id] == t[id]
  {
    map id | id in t && t[id].datetime > now :: t[id]
  }

  /** The table without the ids listed in `ids`. */
  function Removed(t: Table, ids: seq<int>): (r: Table)
    ensures forall id :: id in r <==> id in t && id !in ids
    ensures forall id :: id in r ==> r[id] == t[id]
  {
    map id | id in t && id !in ids :: t[id]
  }

  /** Removing exactly the expired ids is the sweep. */
  lemma RemovedExpired(t: Table, now: nat, ids: seq<int>)
    requires forall id :: id in ids <==> id in t && t[id].datetime <= now
    ensures Removed(t, ids) == Swept(t, now)
  {
    var a, b := Removed(t, ids), Swept(t, now);
    assert forall id :: id in a <==> id in b;
    assert a.Keys == b.Keys;
  }

  /** A sweep at a later time subsumes an earlier one. */
  lemma SweptLater(t: Table, early: nat, late: nat)
    requires early <= late
    ensures Swept(Swept(t, early), late) == Swept(t, late)
  {
  }

  /** A sweep keeps ids in range and never grows the table. */
  lemma SweptKeepsRange(t: Table, now: nat)
    requires IdsInRange(t)
    ensures IdsInRange(Swept(t, now)) && |Swept(t, now)| <= |t|
  {
    assert Swept(t, now).Keys <= t.Keys;
    SubsetSize(Swept(t, now).Keys, t.Keys);
  }
}
