/** Packet identifiers: mosquitto__mid_generate of lib/util_mosq.c and what its cycle gives the outgoing list. */
module PacketIds {
  import opened MosqTypes
  import opened ClientQueue

  /** The identifier after last: a uint16_t increment that skips 0. */
  function Next(last: Word): Word {
    var m := (last + 1) % 0x1_0000;
    if m == 0 then 1 else m
  }

  /** The n-th identifier issued after last. */
  function Nth(last: Word, n: nat): Word {
    if n == 0 then last else Next(Nth(last, n - 1))
  }

  class IdSource {
    var lastMid: Word

    constructor ()
      ensures lastMid == 0
    {
      lastMid := 0;
    }

    /** mosquitto__mid_generate: the identifiers go round from 1 to 65535. The one after the n-th is the n+1-st, so what
        the lemmas below say of Nth they say of the results of this method. */
    method Generate() returns (mid: Word)
      modifies this
      ensures mid == lastMid == old(lastMid) % 65535 + 1
      ensures forall seed, n: nat :: old(lastMid) == Nth(seed, n) ==> mid == Nth(seed, n + 1)
    {
      NextWraps(lastMid);
      lastMid := (lastMid + 1) % 0x1_0000;
      if lastMid == 0 {
        lastMid := lastMid + 1;
      }
      mid := lastMid;
    }
  }

  lemma {:induction false} NthInClosedForm(last: Word, n: nat)
    requires 0 < n
    ensures Nth(last, n) == (last + n - 1) % 65535 + 1
  {
    if n == 1 {
      assert Nth(last, 0) == last;
      NextWraps(last);
    } else {
      NthInClosedForm(last, n - 1);
      NextAfter(last + n - 2);
    }
  }

  lemma NextWraps(last: Word)
    ensures Next(last) == last % 65535 + 1
  {
  }

  lemma NextAfter(x: nat)
    ensures Next(x % 65535 + 1) == (x + 1) % 65535 + 1
  {
    var q, r := x / 65535, x % 65535;
    assert x == 65535 * q + r;
    if r == 65534 {
      assert x + 1 == 65535 * (q + 1);
    } else {
      assert x + 1 == 65535 * q + (r + 1);
    }
  }

  lemma SameRemainder(a: nat, d: nat)
    ensures a % 65535 == (a + d) % 65535 <==> d % 65535 == 0
  {
    var q, r := a / 65535, a % 65535;
    var t, u := d / 65535, d % 65535;
    assert a + d == 65535 * (q + t) + (r + u);
    if r + u < 65535 {
      assert (a + d) % 65535 == r + u;
    } else {
      assert (a + d) % 65535 == r + u - 65535;
    }
  }

  /** Identifiers are never 0, and two of them are equal exactly when they were issued a multiple of 65535 apart;
      so any 65535 consecutive ones are distinct. */
  lemma IdsRepeatAfter65535(last: Word, i: nat, j: nat)
    requires 0 < i <= j
    ensures Nth(last, i) != 0
    ensures Nth(last, i) == Nth(last, j) <==> (j - i) % 65535 == 0
    ensures i < j < i + 65535 ==> Nth(last, i) != Nth(last, j)
  {
    NthInClosedForm(last, i);
    NthInClosedForm(last, j);
    SameRemainder(last + i - 1, j - i);
  }

  /** The messages carry the identifiers with issue numbers tag, issued in list order, fewer than 65535 of them
      since the oldest. Subscriptions and QoS 0 messages take identifiers too, so the numbers may have gaps. */
  predicate IssuedInOrder(msgs: seq<Msg>, seed: Word) {
    && (forall i :: 0 <= i < |msgs| ==> 0 < msgs[i].tag && msgs[i].mid == Nth(seed, msgs[i].tag))
    && (forall i, j :: 0 <= i < j < |msgs| ==> msgs[i].tag < msgs[j].tag < msgs[i].tag + 65535)
  }

  /** Then the outstanding identifiers are pairwise distinct, and removal and update act on the very message
      meant. */
  lemma UniqueMatch(msgs: seq<Msg>, seed: Word, k: nat, state: MsgState)
    requires IssuedInOrder(msgs, seed) && k < |msgs|
    ensures forall i :: 0 <= i < |msgs| && i != k ==> msgs[i].mid != msgs[k].mid
    ensures Find(msgs, msgs[k].mid) == k
    ensures Removed(msgs, msgs[k].mid, msgs[k].qos) == msgs[..k] + msgs[k + 1..]
    ensures Updated(msgs, msgs[k].mid, state, msgs[k].qos) == msgs[k := msgs[k].(state := state)]
  {
    forall i | 0 <= i < |msgs| && i != k
      ensures msgs[i].mid != msgs[k].mid
    {
      var lo, hi := Min(i, k), Max(i, k);
      IdsRepeatAfter65535(seed, msgs[lo].tag, msgs[hi].tag);
    }
    assert Find(msgs, msgs[k].mid) == k;
  }

  /** Publishing with the next identifier keeps the list in that shape as long as the oldest message is fewer than
      65535 identifiers old. */
  lemma NextIdKeepsOrder(msgs: seq<Msg>, seed: Word, n: nat, m: Msg)
    requires IssuedInOrder(msgs, seed)
    requires forall i :: 0 <= i < |msgs| ==> msgs[i].tag <= n
    requires m.tag == n + 1 && m.mid == Next(Nth(seed, n))
    requires msgs != [] ==> n + 1 < msgs[0].tag + 65535
    ensures IssuedInOrder(msgs + [m], seed)
  {
    forall i | 0 <= i < |msgs|
      ensures msgs[i].tag < m.tag < msgs[i].tag + 65535
    {
      assert i > 0 ==> msgs[0].tag < msgs[i].tag;
    }
  }

  /** So does the removal of any message. */
  lemma RemovalKeepsOrder(msgs: seq<Msg>, seed: Word, k: nat)
    requires IssuedInOrder(msgs, seed) && k < |msgs|
    ensures IssuedInOrder(Without(msgs, k), seed)
  {
  }
}
