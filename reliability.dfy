/**
 * The reliability layer: every outbound message that carries a sequence number is kept in a
 * pending table until it is acknowledged; a periodic pass retransmits entries whose timeout
 * has elapsed, and gives an entry up once its retries reach the ceiling.
 */
module Reliability {
  import opened Common
  import opened PyStr
  import opened Messages

  /** One datagram handed to the socket: the encoded text and where it goes. */
  datatype Transmit = Transmit(payload: string, dest: Addr)

  /** A message waiting for its acknowledgment (times are seconds, as the clock reports them). */
  datatype PendingMessage = PendingMessage(
    payload: string, dest: Addr, seqNo: int, lastSent: real, retries: nat, msg: Message)

  /** The retransmission timeout and the retry ceiling the layer is built with. */
  datatype Policy = Policy(timeout: real, maxRetries: nat)

  /** Half a second and three retries. */
  const DefaultPolicy: Policy := Policy(0.5, 3)

  // ---------------------------------------------------------------------------------------
  // The pending table

  predicate Distinct(xs: seq<int>) {
    forall i, j :: 0 <= i < j < |xs| ==> xs[i] != xs[j]
  }

  /**
   * The pending dict as the layer keeps it: `order` lists its keys in insertion order, each
   * once; no entry sits under 0, every entry records its own key, and no entry has been
   * retried more often than the ceiling allows.
   */
  ghost predicate TableOk(p: map<int, PendingMessage>, order: seq<int>, maxRetries: nat) {
    && (forall s :: s in p ==> s != 0 && p[s].seqNo == s && p[s].retries <= maxRetries)
    && Distinct(order)
    && (forall s :: s in order <==> s in p)
  }

  /** `a` stands before `b` in `xs`. */
  predicate Before(xs: seq<int>, a: int, b: int) {
    exists k, l :: 0 <= k < l < |xs| && xs[k] == a && xs[l] == b
  }

  /** `order` with the members of `drop` taken out, the rest in their places. */
  function Without(order: seq<int>, drop: set<int>): (r: seq<int>)
    ensures forall s :: s in r <==> s in order && s !in drop
    ensures Distinct(order) ==> Distinct(r)
    ensures |r| <= |order|
  {
    if order == [] then []
    else
      var init := Without(order[..|order| - 1], drop);
      var s := order[|order| - 1];
      assert forall t :: t in order[..|order| - 1] ==> t in order;
      if s in drop then init else init + [s]
  }

  /** The keys `Without` keeps stand in the same relative order as in `order`. */
  lemma {:induction false} WithoutKeepsOrder(order: seq<int>, drop: set<int>)
    ensures forall i, j :: 0 <= i < j < |Without(order, drop)| ==>
      Before(order, Without(order, drop)[i], Without(order, drop)[j])
  {
    if order != [] {
      var init, s := order[..|order| - 1], order[|order| - 1];
      var r := Without(init, drop);
      WithoutKeepsOrder(init, drop);
      assert forall t :: t in r ==> t in init;
      assert order == init + [s];
      BeforeExtend(init, s, r);
    }
  }

  /** Appending to a list keeps the order of what was before it, and puts the new element last. */
  lemma BeforeExtend(xs: seq<int>, x: int, r: seq<int>)
    requires forall i, j :: 0 <= i < j < |r| ==> Before(xs, r[i], r[j])
    requires forall t :: t in r ==> t in xs
    ensures forall i, j :: 0 <= i < j < |r| ==> Before(xs + [x], r[i], r[j])
    ensures forall i, j :: 0 <= i < j < |r + [x]| ==> Before(xs + [x], (r + [x])[i], (r + [x])[j])
  {
    var ys := xs + [x];
    forall i, j | 0 <= i < j < |r + [x]|
      ensures Before(ys, (r + [x])[i], (r + [x])[j])
    {
      if j < |r| {
        assert Before(xs, r[i], r[j]);
        var k, l :| 0 <= k < l < |xs| && xs[k] == r[i] && xs[l] == r[j];
        assert ys[k] == r[i] && ys[l] == r[j];
      } else {
        assert r[i] in r;
        var k :| 0 <= k < |xs| && xs[k] == r[i];
        assert ys[k] == (r + [x])[i] && ys[|xs|] == (r + [x])[j];
      }
    }
    forall i, j | 0 <= i < j < |r|
      ensures Before(ys, r[i], r[j])
    {
      assert (r + [x])[i] == r[i] && (r + [x])[j] == r[j];
    }
  }

  lemma {:induction false} WithoutTwice(order: seq<int>, a: set<int>, b: set<int>)
    ensures Without(Without(order, a), b) == Without(order, a + b)
  {
    if order != [] {
      var init := order[..|order| - 1];
      var s := order[|order| - 1];
      WithoutTwice(init, a, b);
      if s !in a {
        assert Without(order, a) == Without(init, a) + [s];
        assert Without(order, a)[..|Without(order, a)| - 1] == Without(init, a);
      }
    }
  }

  /** `self.pending[seq] = ...` keeps an existing key's place and puts a new key last. */
  function Enqueue(order: seq<int>, s: int): (r: seq<int>)
    ensures forall t :: t in r <==> t in order || t == s
    ensures Distinct(order) ==> Distinct(r)
  {
    if s in order then order else order + [s]
  }

  /** Removing a key keeps the table well formed. */
  lemma AckKeepsTable(p: map<int, PendingMessage>, order: seq<int>, maxRetries: nat, n: int)
    requires TableOk(p, order, maxRetries)
    ensures TableOk(p - {n}, Without(order, {n}), maxRetries)
    ensures n !in p - {n} && forall s :: s in p && s != n ==> s in p - {n} && (p - {n})[s] == p[s]
  {
  }

  // ---------------------------------------------------------------------------------------
  // Sending

  /** `msg_dict.get("message_type") != "ACK" and "sequence_number" not in msg_dict`. */
  predicate NeedsSequence(msg: Message) {
    Get(msg, "message_type") != Some(Str("ACK")) && Get(msg, "sequence_number").None?
  }

  lemma GetLast(m: Message, k: string, v: Value)
    ensures Get(m + [(k, v)], k) == Some(v)
    ensures forall other :: other != k ==> Get(m + [(k, v)], other) == Get(m, other)
  {
    assert (m + [(k, v)])[..|m|] == m;
  }

  /**
   * The dict after the layer has given it a sequence number where it needs one: a stamped
   * message carries the counter, reads back under it, and keeps every other field, its type
   * among them; a message that already had a number, or is an acknowledgment, is sent as it is.
   */
  function Stamp(msg: Message, counter: int): (r: Message)
    ensures NeedsSequence(msg) ==> Get(r, "sequence_number") == Some(Int(counter)) && SeqOf(r) == Some(counter)
    ensures forall k :: k != "sequence_number" ==> Get(r, k) == Get(msg, k)
    ensures Get(r, "message_type") == Get(msg, "message_type")
    ensures !NeedsSequence(msg) ==> r == msg
  {
    GetLast(msg, "sequence_number", Int(counter));
    if NeedsSequence(msg) then msg + [("sequence_number", Int(counter))] else msg
  }

  /**
   * `int(msg_dict.get("sequence_number", 0) or 0)`: missing and falsy values read as 0, an
   * integer as itself, a string through `int()`; `None` where `int()` raises. For every value
   * but `None` this is the number the receiver reads from the field once the dict is rendered
   * as text, so sender and receiver agree on the number of a message.
   */
  function SeqOf(msg: Message): (r: Option<int>)
    ensures Get(msg, "sequence_number").None? ==> r == Some(0)
    ensures Get(msg, "sequence_number") != Some(Null) ==> r == IntField(AsStrings(msg), "sequence_number")
  {
    AsStringsGet(msg, "sequence_number");
    match Get(msg, "sequence_number")
    case None => Some(0)
    case Some(v) =>
      match v
      case Null => Some(0)
      case Int(i) => IntFieldReads(AsStrings(msg), "sequence_number", i); Some(i)
      case Str(s) => if s == [] then Some(0) else ParseInt(s)
  }

  /** An acknowledgment never gets a sequence number, and is never kept for retransmission. */
  lemma AckIsNotTracked(n: int)
    ensures !NeedsSequence(MakeAck(n))
    ensures SeqOf(MakeAck(n)) == Some(0)
  {
    var a := MakeAck(n);
    assert a[..1][..0] == [];
    assert Get(a, "message_type") == Some(Str("ACK"));
    assert Get(a, "sequence_number") == None;
  }

  /** What a send returns: the datagram and the number it was sent under, or the `ValueError`. */
  datatype SendOutcome =
    | Transmitted(stamped: Message, wire: Transmit, seqNo: int)
    | BadSequence(stamped: Message)

  // ---------------------------------------------------------------------------------------
  // One checker pass

  /** The entry's timeout has elapsed: `now - pm.last_sent >= self.timeout`. */
  predicate Due(pol: Policy, pm: PendingMessage, now: real) {
    now - pm.lastSent >= pol.timeout
  }

  /** A due entry with retries left is retransmitted. */
  predicate Retry(pol: Policy, pm: PendingMessage, now: real) {
    Due(pol, pm, now) && pm.retries < pol.maxRetries
  }

  /** A due entry at the ceiling is given up. */
  predicate GiveUp(pol: Policy, pm: PendingMessage, now: real) {
    Due(pol, pm, now) && pm.retries >= pol.maxRetries
  }

  /** `pm.retries += 1; pm.last_sent = now`. */
  function Bump(pm: PendingMessage, now: real): PendingMessage {
    pm.(retries := pm.retries + 1, lastSent := now)
  }

  /** The table after the first loop has visited `done`: retried entries bumped, the rest untouched. */
  function BumpedUpTo(pol: Policy, p: map<int, PendingMessage>, done: seq<int>, now: real): map<int, PendingMessage> {
    map s | s in p :: if s in done && Retry(pol, p[s], now) then Bump(p[s], now) else p[s]
  }

  /** The table after a whole pass: retried entries bumped, given-up entries gone. */
  function Checked(pol: Policy, p: map<int, PendingMessage>, now: real): map<int, PendingMessage> {
    map s | s in p && !GiveUp(pol, p[s], now) :: if Retry(pol, p[s], now) then Bump(p[s], now) else p[s]
  }

  /** `to_retransmit` after the first loop has visited `keys`. */
  function RetriedEntries(pol: Policy, p: map<int, PendingMessage>, keys: seq<int>, now: real): (r: seq<PendingMessage>)
    ensures |r| <= |keys|
    ensures forall m :: m in r ==> m.lastSent == now && 1 <= m.retries <= pol.maxRetries
  {
    if keys == [] then []
    else
      var init := RetriedEntries(pol, p, keys[..|keys| - 1], now);
      var s := keys[|keys| - 1];
      if s in p && Retry(pol, p[s], now) then init + [Bump(p[s], now)] else init
  }

  /** `timed_out` after the first loop has visited `keys`. */
  function Abandoned(pol: Policy, p: map<int, PendingMessage>, keys: seq<int>, now: real): (r: seq<int>)
    ensures forall s :: s in r <==> s in keys && s in p && GiveUp(pol, p[s], now)
    ensures Distinct(keys) ==> Distinct(r)
  {
    if keys == [] then []
    else
      var init := Abandoned(pol, p, keys[..|keys| - 1], now);
      var s := keys[|keys| - 1];
      assert forall t :: t in keys[..|keys| - 1] ==> t in keys;
      if s in p && GiveUp(pol, p[s], now) then init + [s] else init
  }

  /** The datagrams sent for a list of retried entries, in list order. */
  function Transmits(ms: seq<PendingMessage>): (r: seq<Transmit>)
    ensures |r| == |ms|
    ensures forall i :: 0 <= i < |ms| ==> r[i] == Transmit(ms[i].payload, ms[i].dest)
  {
    seq(|ms|, i requires 0 <= i < |ms| => Transmit(ms[i].payload, ms[i].dest))
  }

  // ---------------------------------------------------------------------------------------
  // The layer

  class ReliabilityLayer {
    const policy: Policy
    /** `self.next_seq`. */
    var nextSeq: int
    /** `self.pending`, with its insertion order in `order`. */
    var pending: map<int, PendingMessage>
    var order: seq<int>
    /** Every number `next_sequence` has handed out. */
    ghost var issued: set<int>

    ghost predicate Valid()
      reads this
    {
      && nextSeq >= 1
      && (forall x :: x in issued <==> 1 <= x < nextSeq)
      && TableOk(pending, order, policy.maxRetries)
    }

    /** A layer with nothing pending whose counter starts at 1. */
    constructor (policy: Policy)
      ensures Valid()
      ensures this.policy == policy && nextSeq == 1 && pending == map[] && order == [] && issued == {}
    {
      this.policy := policy;
      nextSeq := 1;
      pending := map[];
      order := [];
      issued := {};
    }

    /** `next_sequence`: hand out the counter, then advance it. */
    method NextSequence() returns (s: int)
      requires Valid()
      modifies this
      ensures Valid()
      ensures s == old(nextSeq) && nextSeq == s + 1
      ensures s >= 1 && s !in old(issued) && issued == old(issued) + {s}
      ensures pending == old(pending) && order == old(order)
    {
      s := nextSeq;
      issued := issued + {s};
      nextSeq := nextSeq + 1;
    }

    /**
     * `send_with_reliability`: stamp the message if it needs a number, transmit it once, and
     * keep it pending under its number unless that number is 0.
     */
    method SendWithReliability(msg: Message, dest: Addr, now: real) returns (out: SendOutcome)
      requires Valid()
      modifies this
      ensures Valid()
      ensures out.stamped == Stamp(msg, old(nextSeq))
      ensures nextSeq == if NeedsSequence(msg) then old(nextSeq) + 1 else old(nextSeq)
      ensures out.BadSequence? <==> SeqOf(out.stamped).None?
      ensures out.Transmitted? ==>
        out.wire == Transmit(Serialized(out.stamped), dest) && SeqOf(out.stamped) == Some(out.seqNo)
      ensures out.Transmitted? && out.seqNo != 0 ==>
        && pending == old(pending)[out.seqNo := PendingMessage(out.wire.payload, dest, out.seqNo, now, 0, out.stamped)]
        && order == Enqueue(old(order), out.seqNo)
      ensures !(out.Transmitted? && out.seqNo != 0) ==> pending == old(pending) && order == old(order)
    {
      var stamped := msg;
      if NeedsSequence(msg) {
        var counter := NextSequence();
        stamped := msg + [("sequence_number", Int(counter))];
      }
      var payload := SerializeMessage(stamped);
      var number := SeqOf(stamped);
      if number.None? {
        return BadSequence(stamped);
      }
      out := Transmitted(stamped, Transmit(payload, dest), number.value);
      if number.value != 0 {
        pending := pending[number.value := PendingMessage(payload, dest, number.value, now, 0, stamped)];
        order := Enqueue(order, number.value);
      }
    }

    /** `received_ack`: forget the entry under `n`, if there is one. */
    method ReceivedAck(n: int)
      requires Valid()
      modifies this
      ensures Valid()
      ensures pending == old(pending) - {n} && order == Without(old(order), {n})
      ensures nextSeq == old(nextSeq) && issued == old(issued)
    {
      if n in pending {
        pending := pending - {n};
        order := Without(order, {n});
      } else {
        WithoutNone(order, {n});
      }
    }

    /**
     * One pass of `_checker` at time `now`, with the table as it stands: see `CheckTable`.
     */
    method CheckerPass(now: real) returns (sent: seq<Transmit>)
      requires Valid()
      modifies this
      ensures Valid()
      ensures sent == Transmits(RetriedEntries(policy, old(pending), old(order), now))
      ensures pending == Checked(policy, old(pending), now)
      ensures order == Without(old(order), set s | s in old(pending) && GiveUp(policy, old(pending)[s], now))
      ensures nextSeq == old(nextSeq) && issued == old(issued)
    {
      CheckedKeepsTable(policy, pending, order, now);
      sent, pending, order := CheckTable(policy, pending, order, now);
    }
  }

  /**
   * The body of one `_checker` pass over the table `p0` with keys `keys` in order: bump and
   * collect the due entries with retries left, collect the due entries at the ceiling,
   * transmit the first list, then delete the second from the table.
   */
  method CheckTable(pol: Policy, p0: map<int, PendingMessage>, keys: seq<int>, now: real)
    returns (sent: seq<Transmit>, table: map<int, PendingMessage>, ord: seq<int>)
    requires Distinct(keys) && (forall s :: s in keys <==> s in p0)
    ensures sent == Transmits(RetriedEntries(pol, p0, keys, now))
    ensures table == Checked(pol, p0, now)
    ensures ord == Without(keys, set s | s in p0 && GiveUp(pol, p0[s], now))
  {
    var bumped, toRetransmit, timedOut := ScanTable(pol, p0, keys, now);
    sent := TransmitAll(toRetransmit);
    table, ord := DeleteAll(bumped, keys, timedOut);
    CheckedAfterDrops(pol, p0, keys, now, Members(timedOut));
  }

  /**
   * The first loop of a pass, under the lock: visit the entries in table order, bump each
   * due entry with retries left and collect it, collect the key of each due entry at the ceiling.
   */
  method ScanTable(pol: Policy, p0: map<int, PendingMessage>, keys: seq<int>, now: real)
    returns (table: map<int, PendingMessage>, toRetransmit: seq<PendingMessage>, timedOut: seq<int>)
    requires Distinct(keys) && (forall s :: s in keys <==> s in p0)
    ensures table == BumpedUpTo(pol, p0, keys, now)
    ensures toRetransmit == RetriedEntries(pol, p0, keys, now)
    ensures timedOut == Abandoned(pol, p0, keys, now)
  {
    table := p0;
    toRetransmit := [];
    timedOut := [];
    for i := 0 to |keys|
      invariant table == BumpedUpTo(pol, p0, keys[..i], now)
      invariant toRetransmit == RetriedEntries(pol, p0, keys[..i], now)
      invariant timedOut == Abandoned(pol, p0, keys[..i], now)
    {
      var s := keys[i];
      FirstLoopStep(pol, p0, keys, i, now);
      var pm := table[s];
      if now - pm.lastSent >= pol.timeout {
        if pm.retries < pol.maxRetries {
          assert Retry(pol, p0[s], now);
          pm := pm.(retries := pm.retries + 1, lastSent := now);
          assert pm == Bump(p0[s], now);
          table := table[s := pm];
          toRetransmit := toRetransmit + [pm];
        } else {
          assert GiveUp(pol, p0[s], now);
          timedOut := timedOut + [s];
        }
      } else {
        assert !Due(pol, p0[s], now);
      }
    }
    assert keys[..|keys|] == keys;
  }

  /** The second loop: one datagram per collected entry, its payload to its destination, in order. */
  method TransmitAll(toRetransmit: seq<PendingMessage>) returns (sent: seq<Transmit>)
    ensures sent == Transmits(toRetransmit)
  {
    sent := [];
    for j := 0 to |toRetransmit|
      invariant sent == Transmits(toRetransmit[..j])
    {
      var pm := toRetransmit[j];
      sent := sent + [Transmit(pm.payload, pm.dest)];
    }
    assert toRetransmit[..|toRetransmit|] == toRetransmit;
  }

  /** The third loop, under the lock again: delete each collected key that is still in the table. */
  method DeleteAll(bumped: map<int, PendingMessage>, keys: seq<int>, timedOut: seq<int>)
    returns (table: map<int, PendingMessage>, ord: seq<int>)
    requires forall k :: k in keys <==> k in bumped
    ensures table == DropAll(bumped, timedOut)
    ensures ord == Without(keys, Members(timedOut))
  {
    table := bumped;
    ord := keys;
    assert Members(timedOut[..0]) == {};
    WithoutNone(keys, {});
    for j := 0 to |timedOut|
      invariant table == DropAll(bumped, timedOut[..j])
      invariant ord == Without(keys, Members(timedOut[..j]))
    {
      var s := timedOut[j];
      DropStep(bumped, timedOut, j, keys);
      if s in table {
        table := table - {s};
        ord := Without(ord, {s});
      }
    }
    assert timedOut[..|timedOut|] == timedOut;
  }

  lemma {:induction false} WithoutNone(order: seq<int>, drop: set<int>)
    requires forall s :: s in order ==> s !in drop
    ensures Without(order, drop) == order
  {
    if order != [] {
      var init := order[..|order| - 1];
      assert forall s :: s in init ==> s in order;
      WithoutNone(init, drop);
      assert init + [order[|order| - 1]] == order;
    }
  }

  /** `bumped` with the keys of `ss` deleted one after the other. */
  function DropAll(bumped: map<int, PendingMessage>, ss: seq<int>): map<int, PendingMessage> {
    if ss == [] then bumped else DropAll(bumped, ss[..|ss| - 1]) - {ss[|ss| - 1]}
  }

  lemma {:induction false} DropAllMembers(bumped: map<int, PendingMessage>, ss: seq<int>)
    ensures DropAll(bumped, ss) == map k | k in bumped && k !in ss :: bumped[k]
  {
    if ss != [] {
      DropAllMembers(bumped, ss[..|ss| - 1]);
      assert ss == ss[..|ss| - 1] + [ss[|ss| - 1]];
    }
  }

  /** The keys listed in `xs`. */
  function Members(xs: seq<int>): set<int> {
    set k | k in xs
  }

  /** One visit of the deletion loop: the key at `j` leaves both the table and the order. */
  lemma DropStep(bumped: map<int, PendingMessage>, ts: seq<int>, j: nat, keys: seq<int>)
    requires j < |ts|
    requires forall k :: k in keys <==> k in bumped
    ensures DropAll(bumped, ts[..j + 1]) == DropAll(bumped, ts[..j]) - {ts[j]}
    ensures Without(Without(keys, Members(ts[..j])), {ts[j]}) == Without(keys, Members(ts[..j + 1]))
    ensures ts[j] !in DropAll(bumped, ts[..j]) ==>
      DropAll(bumped, ts[..j]) - {ts[j]} == DropAll(bumped, ts[..j])
      && Without(keys, Members(ts[..j])) == Without(keys, Members(ts[..j + 1]))
  {
    var s := ts[j];
    assert ts[..j + 1][..j] == ts[..j];
    assert ts[..j + 1] == ts[..j] + [s];
    assert Members(ts[..j + 1]) == Members(ts[..j]) + {s};
    WithoutTwice(keys, Members(ts[..j]), {s});
    if s !in DropAll(bumped, ts[..j]) {
      DropAllMembers(bumped, ts[..j]);
      WithoutNone(Without(keys, Members(ts[..j])), {s});
    }
  }

  lemma BumpedStep(pol: Policy, p: map<int, PendingMessage>, done: seq<int>, s: int, now: real)
    requires s in p && s !in done
    ensures BumpedUpTo(pol, p, done, now)[s] == p[s]
    ensures BumpedUpTo(pol, p, done + [s], now) ==
      if Retry(pol, p[s], now) then BumpedUpTo(pol, p, done, now)[s := Bump(p[s], now)]
      else BumpedUpTo(pol, p, done, now)
  {
  }

  /** After both loops the table is exactly `Checked`, and the dropped keys are the given-up ones. */
  lemma CheckedAfterDrops(pol: Policy, p: map<int, PendingMessage>, keys: seq<int>, now: real, gone: set<int>)
    requires forall s :: s in keys <==> s in p
    requires forall k :: k in gone <==> k in Abandoned(pol, p, keys, now)
    ensures DropAll(BumpedUpTo(pol, p, keys, now), Abandoned(pol, p, keys, now)) == Checked(pol, p, now)
    ensures gone == set s | s in p && GiveUp(pol, p[s], now)
  {
    var b := BumpedUpTo(pol, p, keys, now);
    var c := Checked(pol, p, now);
    var ab := Abandoned(pol, p, keys, now);
    DropAllMembers(b, ab);
    var m := map k | k in b && k !in ab :: b[k];
    forall k ensures k in m <==> k in c {
      if k in p {
        assert k in keys;
        assert k in b;
      }
    }
    forall k | k in m ensures m[k] == c[k] {
      assert k in keys;
    }
    var g := set s | s in p && GiveUp(pol, p[s], now);
    forall k ensures k in gone <==> k in g {
      if k in p {
        assert k in keys;
      }
    }
  }

  /** One visit of the first loop: how the three accumulators grow by the key at `i`. */
  lemma FirstLoopStep(pol: Policy, p: map<int, PendingMessage>, keys: seq<int>, i: nat, now: real)
    requires i < |keys| && Distinct(keys) && (forall s :: s in keys <==> s in p)
    ensures keys[i] in BumpedUpTo(pol, p, keys[..i], now)
    ensures BumpedUpTo(pol, p, keys[..i], now)[keys[i]] == p[keys[i]]
    ensures Retry(pol, p[keys[i]], now) ==>
      && BumpedUpTo(pol, p, keys[..i + 1], now) == BumpedUpTo(pol, p, keys[..i], now)[keys[i] := Bump(p[keys[i]], now)]
      && RetriedEntries(pol, p, keys[..i + 1], now) == RetriedEntries(pol, p, keys[..i], now) + [Bump(p[keys[i]], now)]
      && Abandoned(pol, p, keys[..i + 1], now) == Abandoned(pol, p, keys[..i], now)
    ensures GiveUp(pol, p[keys[i]], now) ==>
      && BumpedUpTo(pol, p, keys[..i + 1], now) == BumpedUpTo(pol, p, keys[..i], now)
      && RetriedEntries(pol, p, keys[..i + 1], now) == RetriedEntries(pol, p, keys[..i], now)
      && Abandoned(pol, p, keys[..i + 1], now) == Abandoned(pol, p, keys[..i], now) + [keys[i]]
    ensures !Due(pol, p[keys[i]], now) ==>
      && BumpedUpTo(pol, p, keys[..i + 1], now) == BumpedUpTo(pol, p, keys[..i], now)
      && RetriedEntries(pol, p, keys[..i + 1], now) == RetriedEntries(pol, p, keys[..i], now)
      && Abandoned(pol, p, keys[..i + 1], now) == Abandoned(pol, p, keys[..i], now)
  {
    var s := keys[i];
    assert keys[..i + 1][..i] == keys[..i];
    assert s !in keys[..i] by {
      forall j | 0 <= j < i ensures keys[..i][j] != s {
        assert keys[..i][j] == keys[j];
      }
    }
    assert keys[..i + 1] == keys[..i] + [s];
    BumpedStep(pol, p, keys[..i], s, now);
  }

  // ---------------------------------------------------------------------------------------
  // Properties of a pass

  /**
   * What one pass does to the entry under `s`: an entry that is not due stays as it is and
   * is not sent; a due entry with retries left is sent once more, unchanged, to the same
   * destination, with one more retry and `now` as its send time; a due entry at the ceiling
   * is removed without being sent.
   */
  lemma CheckerDecision(pol: Policy, p: map<int, PendingMessage>, order: seq<int>, now: real, s: int)
    requires TableOk(p, order, pol.maxRetries) && s in p
    ensures !Due(pol, p[s], now) ==>
      s in Checked(pol, p, now) && Checked(pol, p, now)[s] == p[s]
      && Bump(p[s], now) !in RetriedEntries(pol, p, order, now)
    ensures Retry(pol, p[s], now) ==>
      && s in Checked(pol, p, now)
      && Checked(pol, p, now)[s] == p[s].(retries := p[s].retries + 1, lastSent := now)
      && Transmit(p[s].payload, p[s].dest) in Transmits(RetriedEntries(pol, p, order, now))
    ensures GiveUp(pol, p[s], now) ==>
      s !in Checked(pol, p, now) && Bump(p[s], now) !in RetriedEntries(pol, p, order, now)
  {
    RetriedMembers(pol, p, order, now, s);
    if Retry(pol, p[s], now) {
      var r := RetriedEntries(pol, p, order, now);
      var i :| 0 <= i < |r| && r[i] == Bump(p[s], now);
      assert Transmits(r)[i] == Transmit(p[s].payload, p[s].dest);
    }
  }

  /** An entry is in the retransmit list exactly when it is due and has retries left. */
  lemma {:induction false} RetriedMembers(pol: Policy, p: map<int, PendingMessage>, keys: seq<int>, now: real, s: int)
    requires forall t :: t in p ==> p[t].seqNo == t
    requires s in p
    ensures Bump(p[s], now) in RetriedEntries(pol, p, keys, now) <==> s in keys && Retry(pol, p[s], now)
  {
    if keys != [] {
      var init := keys[..|keys| - 1];
      var t := keys[|keys| - 1];
      RetriedMembers(pol, p, init, now, s);
      assert keys == init + [t];
      if t in p && Retry(pol, p[t], now) && t != s {
        assert Bump(p[t], now).seqNo != Bump(p[s], now).seqNo;
      }
    }
  }

  /** A pass keeps the table well formed: in particular no entry is ever retried past the ceiling. */
  lemma CheckedKeepsTable(pol: Policy, p: map<int, PendingMessage>, order: seq<int>, now: real)
    requires TableOk(p, order, pol.maxRetries)
    ensures TableOk(Checked(pol, p, now), Without(order, set s | s in p && GiveUp(pol, p[s], now)), pol.maxRetries)
  {
  }

  /** How often a series of passes, one at each of `nows`, retransmits the entry under `s`. */
  function Resends(pol: Policy, p: map<int, PendingMessage>, s: int, nows: seq<real>): nat {
    if nows == [] then 0
    else
      (if s in p && Retry(pol, p[s], nows[0]) then 1 else 0)
      + Resends(pol, Checked(pol, p, nows[0]), s, nows[1..])
  }

  /**
   * However many passes run, an entry is retransmitted at most as many times as it has
   * retries left; a counter entry (no retries yet) is therefore sent at most `1 + maxRetries`
   * times in all, counting the first transmission.
   */
  lemma {:induction false} ResendsBounded(pol: Policy, p: map<int, PendingMessage>, s: int, nows: seq<real>)
    requires s in p ==> p[s].retries <= pol.maxRetries
    ensures Resends(pol, p, s, nows) <= if s in p then pol.maxRetries - p[s].retries else 0
  {
    if nows != [] {
      var q := Checked(pol, p, nows[0]);
      ResendsBounded(pol, q, s, nows[1..]);
    }
  }
}
