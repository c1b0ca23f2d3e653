/**
 * A peer node: it resolves destinations for outbound messages and, for every datagram that
 * arrives, decides whether to pass an acknowledgment to the reliability layer, whether to
 * acknowledge the datagram, whether it is a duplicate, whether to learn the peer's address,
 * and whether to hand the message to the application handler.
 */
module Network {
  import opened Common
  import opened PyStr
  import opened Messages
  import opened Reliability

  /** What the receive step does besides updating the node. */
  datatype Action =
    | AckForwarded(ackNo: int)            // `self.reliability.received_ack(ack_num)`
    | SendAck(seqNo: int, wire: Transmit) // `self.sock.sendto(serialize_message(make_ack(seq)), addr)`
    | Dispatch(msg: map<string, string>, from: Addr) // the handler thread started for the message

  /** The two fields the receive step updates. */
  datatype NodeView = NodeView(peerAddr: Option<Addr>, processed: set<int>)

  /** The message types that teach a node its peer's address. */
  const SessionTypes: set<string> := {"HANDSHAKE_REQUEST", "SPECTATOR_REQUEST", "HANDSHAKE_RESPONSE"}

  /**
   * `int(msg.get(key, "0") or 0)` with a `ValueError` read as 0: missing, empty and
   * non-numeric fields give 0.
   */
  function NumberOr0(msg: map<string, string>, key: string): int {
    match IntField(msg, key)
    case None => 0
    case Some(n) => n
  }

  /** The datagram that acknowledges `seqNo` to `to`. */
  function AckDatagram(seqNo: int, to: Addr): Transmit {
    Transmit(Serialized(MakeAck(seqNo)), to)
  }

  /** A datagram without a message type is dropped before anything else happens. */
  predicate Untyped(msg: map<string, string>) {
    msg == map[] || "message_type" !in msg || msg["message_type"] == []
  }

  /** The receive step of the node on one parsed datagram `msg` from `from`. */
  function Receipt(v: NodeView, msg: map<string, string>, from: Addr): (NodeView, seq<Action>) {
    if Untyped(msg) then (v, [])
    else
      var mtype := msg["message_type"];
      var seqNo := NumberOr0(msg, "sequence_number");
      if mtype == "ACK" then
        var n := NumberOr0(msg, "ack_number");
        (v, if n != 0 then [AckForwarded(n)] else [])
      else
        var ack := if seqNo > 0 then [SendAck(seqNo, AckDatagram(seqNo, from))] else [];
        if seqNo > 0 && seqNo in v.processed then (v, ack)
        else
          var processed := if seqNo > 0 then v.processed + {seqNo} else v.processed;
          var peer := if v.peerAddr.None? && mtype in SessionTypes then Some(from) else v.peerAddr;
          (NodeView(peer, processed), ack + [Dispatch(msg, from)])
  }

  /** The acknowledgment numbers a step handed to the reliability layer. */
  function Acked(actions: seq<Action>): set<int> {
    if actions == [] then {}
    else (if actions[0].AckForwarded? then {actions[0].ackNo} else {}) + Acked(actions[1..])
  }

  /** `addr if addr is not None else self.peer_addr`. */
  function Destination(addr: Option<Addr>, peerAddr: Option<Addr>): Option<Addr> {
    if addr.Some? then addr else peerAddr
  }

  /** What `send` does: the `RuntimeError` for no destination, or the reliability layer's outcome. */
  datatype SendResult = NoDestination | Delegated(dest: Addr, outcome: SendOutcome)

  class PeerNode {
    /** `self.peer_addr`. */
    var peerAddr: Option<Addr>
    /** `self.processed_seqs`. */
    var processedSeqs: set<int>
    /** `self.reliability`. */
    const reliability: ReliabilityLayer

    ghost predicate Valid()
      reads this, reliability
    {
      reliability.Valid()
    }

    function View(): NodeView
      reads this
    {
      NodeView(peerAddr, processedSeqs)
    }

    /** A node that knows no peer yet and has processed nothing. */
    constructor (policy: Policy)
      ensures Valid() && fresh(reliability)
      ensures peerAddr == None && processedSeqs == {}
      ensures reliability.nextSeq == 1 && reliability.pending == map[] && reliability.policy == policy
    {
      peerAddr := None;
      processedSeqs := {};
      reliability := new ReliabilityLayer(policy);
    }

    /**
     * `send`: fall back to the peer's address when none is given, fail when there is none
     * either, and otherwise hand the message to the reliability layer once.
     */
    method Send(msg: Message, addr: Option<Addr>, now: real) returns (r: SendResult)
      requires Valid()
      modifies reliability
      ensures Valid()
      ensures r.NoDestination? <==> Destination(addr, peerAddr).None?
      ensures r.NoDestination? ==>
        reliability.nextSeq == old(reliability.nextSeq) && reliability.pending == old(reliability.pending)
      ensures r.Delegated? ==>
        && r.dest == Destination(addr, peerAddr).value
        && r.outcome.stamped == Stamp(msg, old(reliability.nextSeq))
        && reliability.nextSeq == (if NeedsSequence(msg) then old(reliability.nextSeq) + 1 else old(reliability.nextSeq))
        && (r.outcome.Transmitted? ==> r.outcome.wire == Transmit(Serialized(r.outcome.stamped), r.dest))
        && (r.outcome.Transmitted? && r.outcome.seqNo != 0 ==>
              reliability.pending == old(reliability.pending)[r.outcome.seqNo :=
                PendingMessage(r.outcome.wire.payload, r.dest, r.outcome.seqNo, now, 0, r.outcome.stamped)])
        && (!(r.outcome.Transmitted? && r.outcome.seqNo != 0) ==> reliability.pending == old(reliability.pending))
    {
      var dest := addr;
      if dest.None? {
        dest := peerAddr;
      }
      if dest.None? {
        return NoDestination;
      }
      var outcome := reliability.SendWithReliability(msg, dest.value, now);
      r := Delegated(dest.value, outcome);
    }

    /**
     * The body of the receive loop for one datagram `data` from `from`: parse it, pass an
     * acknowledgment on, or acknowledge the datagram, drop duplicates, learn the peer's address
     * from a session message, and dispatch.
     */
    method Receive(data: string, from: Addr) returns (actions: seq<Action>)
      requires Valid()
      modifies this, reliability
      ensures Valid()
      ensures (View(), actions) == Receipt(old(View()), Parsed(data), from)
      ensures reliability.pending == old(reliability.pending) - Acked(actions)
      ensures reliability.nextSeq == old(reliability.nextSeq)
    {
      var msg := ParseMessage(data);
      if msg == map[] || "message_type" !in msg || msg["message_type"] == [] {
        assert reliability.pending - {} == reliability.pending;
        return [];
      }
      if msg["message_type"] == "ACK" {
        actions := ForwardAck(msg, from);
      } else {
        actions := Deliver(msg, from);
      }
    }

    /** An acknowledgment: hand its number to the reliability layer when it reads as nonzero. */
    method ForwardAck(msg: map<string, string>, from: Addr) returns (actions: seq<Action>)
      requires Valid() && !Untyped(msg) && msg["message_type"] == "ACK"
      modifies reliability
      ensures Valid()
      ensures (View(), actions) == Receipt(View(), msg, from)
      ensures reliability.pending == old(reliability.pending) - Acked(actions)
      ensures reliability.nextSeq == old(reliability.nextSeq)
    {
      var n := NumberOr0(msg, "ack_number");
      if n != 0 {
        reliability.ReceivedAck(n);
        actions := [AckForwarded(n)];
        assert Acked(actions) == {n};
      } else {
        actions := [];
        assert reliability.pending - {} == reliability.pending;
      }
    }

    /** Any other typed message: acknowledge it, drop a duplicate, learn the peer, dispatch. */
    method Deliver(msg: map<string, string>, from: Addr) returns (actions: seq<Action>)
      requires !Untyped(msg) && msg["message_type"] != "ACK"
      modifies this
      ensures (View(), actions) == Receipt(old(View()), msg, from)
      ensures Acked(actions) == {}
    {
      ghost var v0 := View();
      var mtype := msg["message_type"];
      var seqNo := NumberOr0(msg, "sequence_number");
      actions := [];
      if seqNo > 0 {
        var ack := MakeAck(seqNo);
        var payload := SerializeMessage(ack);
        actions := [SendAck(seqNo, Transmit(payload, from))];
        assert Acked(actions) == {};
        if seqNo in processedSeqs {
          assert (View(), actions) == Receipt(v0, msg, from);
          return;
        }
        processedSeqs := processedSeqs + {seqNo};
      }
      if peerAddr.None? && mtype in SessionTypes {
        peerAddr := Some(from);
      }
      AckedNone(actions, Dispatch(msg, from));
      actions := actions + [Dispatch(msg, from)];
    }
  }

  lemma AckedNone(actions: seq<Action>, d: Action)
    requires Acked(actions) == {} && !d.AckForwarded?
    ensures Acked(actions + [d]) == {}
  {
    if actions != [] {
      assert (actions + [d])[1..] == actions[1..] + [d];
      AckedNone(actions[1..], d);
    } else {
      assert [d][1..] == [];
    }
  }

  // ---------------------------------------------------------------------------------------
  // Properties of the receive step

  /** A datagram without a type changes nothing and causes nothing. */
  lemma UntypedDropped(v: NodeView, msg: map<string, string>, from: Addr)
    requires Untyped(msg)
    ensures Receipt(v, msg, from) == (v, [])
  {
  }

  /**
   * An acknowledgment is passed on to the reliability layer exactly when its number reads
   * as nonzero; it is never acknowledged or dispatched and leaves the node as it is.
   */
  lemma AckOnlyForwarded(v: NodeView, msg: map<string, string>, from: Addr)
    requires !Untyped(msg) && msg["message_type"] == "ACK"
    ensures Receipt(v, msg, from).0 == v
    ensures Receipt(v, msg, from).1 ==
      if NumberOr0(msg, "ack_number") != 0 then [AckForwarded(NumberOr0(msg, "ack_number"))] else []
  {
  }

  /**
   * A typed message other than an acknowledgment with a positive number is acknowledged to
   * its sender first, whether or not it is a duplicate; it is dispatched, and its number
   * recorded, exactly when the number is new.
   */
  lemma NumberedMessage(v: NodeView, msg: map<string, string>, from: Addr)
    requires !Untyped(msg) && msg["message_type"] != "ACK"
    requires NumberOr0(msg, "sequence_number") > 0
    ensures var s := NumberOr0(msg, "sequence_number");
      var (w, acts) := Receipt(v, msg, from);
      && |acts| >= 1 && acts[0] == SendAck(s, AckDatagram(s, from))
      && (s in v.processed ==> w == v && acts == [acts[0]])
      && (s !in v.processed ==> w.processed == v.processed + {s} && acts == [acts[0], Dispatch(msg, from)])
  {
  }

  /** A typed message other than an acknowledgment without a positive number bypasses deduplication and is always dispatched. */
  lemma UnnumberedMessage(v: NodeView, msg: map<string, string>, from: Addr)
    requires !Untyped(msg) && msg["message_type"] != "ACK"
    requires NumberOr0(msg, "sequence_number") <= 0
    ensures Receipt(v, msg, from).1 == [Dispatch(msg, from)]
    ensures Receipt(v, msg, from).0.processed == v.processed
  {
  }

  /**
   * The processed set only grows, and the peer's address is learned only once: it is set to
   * the sender when it was unknown and a session message is dispatched, and never changed after.
   */
  lemma ReceiptMonotone(v: NodeView, msg: map<string, string>, from: Addr)
    ensures v.processed <= Receipt(v, msg, from).0.processed
    ensures v.peerAddr.Some? ==> Receipt(v, msg, from).0.peerAddr == v.peerAddr
    ensures Receipt(v, msg, from).0.peerAddr != v.peerAddr ==>
      && v.peerAddr.None? && Receipt(v, msg, from).0.peerAddr == Some(from)
      && msg["message_type"] in SessionTypes
      && Dispatch(msg, from) in Receipt(v, msg, from).1
  {
  }

  /** How often a series of datagrams, received one after the other, dispatches a message numbered `s`. */
  function DispatchesOf(v: NodeView, inbox: seq<(map<string, string>, Addr)>, s: int): nat
    decreases |inbox|
  {
    if inbox == [] then 0
    else
      var (w, acts) := Receipt(v, inbox[0].0, inbox[0].1);
      var here := if NumberOr0(inbox[0].0, "sequence_number") == s && Dispatch(inbox[0].0, inbox[0].1) in acts then 1 else 0;
      here + DispatchesOf(w, inbox[1..], s)
  }

  lemma DispatchRecords(v: NodeView, msg: map<string, string>, from: Addr)
    requires NumberOr0(msg, "sequence_number") > 0
    requires Dispatch(msg, from) in Receipt(v, msg, from).1
    ensures NumberOr0(msg, "sequence_number") !in v.processed
    ensures NumberOr0(msg, "sequence_number") in Receipt(v, msg, from).0.processed
  {
  }

  /**
   * Whatever arrives, and however often the sender retransmits, a message with a positive
   * number is handed to the application at most once, and not at all once its number has
   * been processed.
   */
  lemma {:induction false} AtMostOnceDispatch(v: NodeView, inbox: seq<(map<string, string>, Addr)>, s: int)
    requires s > 0
    ensures DispatchesOf(v, inbox, s) <= if s in v.processed then 0 else 1
    decreases |inbox|
  {
    if inbox != [] {
      var (msg, from) := inbox[0];
      var w := Receipt(v, msg, from).0;
      ReceiptMonotone(v, msg, from);
      AtMostOnceDispatch(w, inbox[1..], s);
      if NumberOr0(msg, "sequence_number") == s && Dispatch(msg, from) in Receipt(v, msg, from).1 {
        DispatchRecords(v, msg, from);
      }
    }
  }

  /**
   * The acknowledgment a node sends for a positive number `s` comes back to the sender as
   * exactly one `AckForwarded(s)`, which clears `s` from the sender's pending table.
   */
  lemma AckReachesSender(v: NodeView, s: int, from: Addr)
    requires s > 0
    ensures Receipt(v, Parsed(AckDatagram(s, from).payload), from) == (v, [AckForwarded(s)])
  {
    AckRoundTrip(s);
    var msg := Parsed(Serialized(MakeAck(s)));
    assert msg["message_type"] == "ACK";
    assert NumberOr0(msg, "ack_number") == s;
  }
}
