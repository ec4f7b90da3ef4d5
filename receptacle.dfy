/**
 * Message receptacles: the messages a monitor has received but not yet
 * delivered, together with one counter per process of the messages
 * delivered from it.  A message is delivered only once every message that
 * causally precedes it has been delivered, which gives causal delivery.
 */
module Receptacle {
  import opened Wrappers
  import Numerals
  import Logical
  import opened Vector

  /** The set of elements of a sequence. */
  function Elements<T>(s: seq<T>): set<T> {
    set x | x in s
  }

  predicate Distinct<T(==)>(s: seq<T>) {
    forall i, j :: 0 <= i < j < |s| ==> s[i] != s[j]
  }

  /**
   * One `range` over the received messages: every stored message exactly
   * once, in an order the map does not fix.
   */
  predicate VisitOrder(order: seq<Message>, received: map<Message, Clock>) {
    Distinct(order) && Elements(order) == received.Keys
  }

  /** The value of a stored clock: its owner and its components. */
  datatype Sent = Sent(id: int, vector: seq<nat>)

  function Value(ts: Clock): Sent
    reads ts
  {
    Sent(ts.id, ts.vector)
  }

  /** The values of the stored clocks, message by message. */
  function Snapshot(received: map<Message, Clock>): (stamps: map<Message, Sent>)
    reads received.Values
    ensures stamps.Keys == received.Keys
  {
    map m | m in received :: Value(received[m])
  }

  /** `ts` stamps an event of one of `n` processes. */
  predicate Fits(ts: Sent, n: nat) {
    1 <= ts.id <= n && |ts.vector| == n
  }

  /** Every message of `order` is stored, with a clock that fits `n` processes. */
  predicate Stored(order: seq<Message>, stamps: map<Message, Sent>, n: nat) {
    forall m :: m in order ==> m in stamps && Fits(stamps[m], n)
  }

  /**
   * A message stamped `ts` may be delivered after the deliveries counted in
   * `counter`: it is the next message of its sender, and every message of
   * another process that its sender had seen has been delivered.
   */
  predicate Deliverable(counter: seq<nat>, ts: Sent)
    requires Fits(ts, |counter|)
  {
    counter[ts.id - 1] + 1 == ts.vector[ts.id - 1]
    && forall j :: 0 <= j < |counter| && j != ts.id - 1 ==> ts.vector[j] <= counter[j]
  }

  /**
   * The counter and the delivery after examining message `m`, stamped `ts`:
   * a deliverable message raises its sender's counter to the sender's
   * component of `ts` and is appended to the delivery.
   */
  function Visit(state: (seq<nat>, seq<Message>), m: Message, ts: Sent): (seq<nat>, seq<Message>)
    requires Fits(ts, |state.0|)
  {
    if Deliverable(state.0, ts) then (state.0[ts.id - 1 := ts.vector[ts.id - 1]], state.1 + [m])
    else state
  }

  /**
   * The counter and the delivered messages after the messages of `order`
   * have been examined in turn, each against the counter as the earlier ones
   * left it.
   */
  function Pass(counter: seq<nat>, stamps: map<Message, Sent>, order: seq<Message>): (r: (seq<nat>, seq<Message>))
    requires Stored(order, stamps, |counter|)
    ensures |r.0| == |counter|
  {
    if order == [] then (counter, [])
    else Visit(Pass(counter, stamps, order[..|order| - 1]), order[|order| - 1], stamps[order[|order| - 1]])
  }

  /** The pass over one more message extends the pass over the ones before it. */
  lemma PassSnoc(counter: seq<nat>, stamps: map<Message, Sent>, order: seq<Message>, i: nat)
    requires Stored(order, stamps, |counter|) && i < |order|
    ensures Stored(order[..i], stamps, |counter|) && Stored(order[..i + 1], stamps, |counter|)
    ensures Pass(counter, stamps, order[..i + 1]) == Visit(Pass(counter, stamps, order[..i]), order[i], stamps[order[i]])
  {
    assert order[..i + 1][..i] == order[..i];
  }

  /** A pass delivers messages of `order` only, each at most once when `order` visits each once. */
  lemma {:induction false} PassDeliversFromOrder(counter: seq<nat>, stamps: map<Message, Sent>, order: seq<Message>)
    requires Stored(order, stamps, |counter|)
    ensures forall m :: m in Pass(counter, stamps, order).1 ==> m in order
    ensures Distinct(order) ==> Distinct(Pass(counter, stamps, order).1)
  {
    if order != [] {
      var front, last := order[..|order| - 1], order[|order| - 1];
      assert Stored(front, stamps, |counter|);
      PassDeliversFromOrder(counter, stamps, front);
      assert forall m :: m in front ==> m in order;
      if Distinct(order) {
        assert Distinct(front);
        assert last !in front;
      }
    }
  }

  /** How many of `delivery` were sent by process `id`. */
  function FromSender(delivery: seq<Message>, stamps: map<Message, Sent>, id: int): nat
    requires forall m :: m in delivery ==> m in stamps
  {
    if delivery == [] then 0
    else
      FromSender(delivery[..|delivery| - 1], stamps, id)
      + (if stamps[delivery[|delivery| - 1]].id == id then 1 else 0)
  }

  /** Counting one more delivered message. */
  lemma FromSenderSnoc(delivery: seq<Message>, stamps: map<Message, Sent>, m: Message, id: int)
    requires forall x :: x in delivery + [m] ==> x in stamps
    ensures FromSender(delivery + [m], stamps, id) == FromSender(delivery, stamps, id) + (if stamps[m].id == id then 1 else 0)
  {
    assert (delivery + [m])[..|delivery|] == delivery;
  }

  /**
   * After a pass, the counter of each process has grown by exactly the
   * number of its messages the pass delivered: the counter counts
   * deliveries.
   */
  lemma {:induction false} PassCounts(counter: seq<nat>, stamps: map<Message, Sent>, order: seq<Message>)
    requires Stored(order, stamps, |counter|)
    ensures forall m :: m in Pass(counter, stamps, order).1 ==> m in stamps
    ensures forall j :: 0 <= j < |counter| ==>
              Pass(counter, stamps, order).0[j] == counter[j] + FromSender(Pass(counter, stamps, order).1, stamps, j + 1)
  {
    PassDeliversFromOrder(counter, stamps, order);
    if order != [] {
      var front, last := order[..|order| - 1], order[|order| - 1];
      assert Stored(front, stamps, |counter|);
      PassCounts(counter, stamps, front);
      var before := Pass(counter, stamps, front);
      var ts := stamps[last];
      if Deliverable(before.0, ts) {
        forall j | 0 <= j < |counter|
          ensures Pass(counter, stamps, order).0[j] == counter[j] + FromSender(Pass(counter, stamps, order).1, stamps, j + 1)
        {
          FromSenderSnoc(before.1, stamps, last, j + 1);
        }
      }
    }
  }

  /** Every clock of `d` is dominated, component by component, by `counter`. */
  predicate Dominates(counter: seq<nat>, d: seq<Message>, stamps: map<Message, Sent>)
    requires forall m :: m in d ==> m in stamps && Fits(stamps[m], |counter|)
  {
    forall m, j :: m in d && 0 <= j < |counter| ==> Fits(stamps[m], |counter|) && stamps[m].vector[j] <= counter[j]
  }

  /** Every clock a pass delivered is dominated, component by component, by the counter it leaves. */
  lemma {:induction false} PassDominates(counter: seq<nat>, stamps: map<Message, Sent>, order: seq<Message>)
    requires Stored(order, stamps, |counter|)
    ensures forall m :: m in Pass(counter, stamps, order).1 ==> m in stamps && Fits(stamps[m], |counter|)
    ensures Dominates(Pass(counter, stamps, order).0, Pass(counter, stamps, order).1, stamps)
  {
    PassDeliversFromOrder(counter, stamps, order);
    if order != [] {
      var front, last := order[..|order| - 1], order[|order| - 1];
      assert Stored(front, stamps, |counter|);
      PassDominates(counter, stamps, front);
    }
  }

  /**
   * No message of `d` happens before one ahead of it: each has seen more
   * events of its own sender than every message ahead of it had.
   */
  predicate CausallyOrdered(d: seq<Message>, stamps: map<Message, Sent>, n: nat)
    requires forall m :: m in d ==> m in stamps && Fits(stamps[m], n)
  {
    forall i, k :: 0 <= i < k < |d| ==>
      Fits(stamps[d[i]], n) && Fits(stamps[d[k]], n)
      && stamps[d[i]].vector[stamps[d[k]].id - 1] < stamps[d[k]].vector[stamps[d[k]].id - 1]
  }

  /**
   * Causal order within a pass: a message delivered after another has seen
   * more events of its own sender than the earlier one had, so it does not
   * happen before the earlier one.
   */
  lemma {:induction false} PassCausal(counter: seq<nat>, stamps: map<Message, Sent>, order: seq<Message>)
    requires Stored(order, stamps, |counter|)
    ensures forall m :: m in Pass(counter, stamps, order).1 ==> m in stamps && Fits(stamps[m], |counter|)
    ensures CausallyOrdered(Pass(counter, stamps, order).1, stamps, |counter|)
  {
    PassDeliversFromOrder(counter, stamps, order);
    if order != [] {
      var front, last := order[..|order| - 1], order[|order| - 1];
      assert Stored(front, stamps, |counter|);
      PassCausal(counter, stamps, front);
      PassDominates(counter, stamps, front);
      var before := Pass(counter, stamps, front);
      var d := Pass(counter, stamps, order).1;
      var ts := stamps[last];
      if Deliverable(before.0, ts) {
        assert d == before.1 + [last];
        forall i, k | 0 <= i < k < |d|
          ensures stamps[d[i]].vector[stamps[d[k]].id - 1] < stamps[d[k]].vector[stamps[d[k]].id - 1]
        {
          assert d[i] == before.1[i] && d[i] in before.1;
          if k == |d| - 1 {
            assert stamps[d[i]].vector[ts.id - 1] <= before.0[ts.id - 1];
          } else {
            assert d[k] == before.1[k];
          }
        }
      } else {
        assert d == before.1;
      }
    }
  }

  /** A pass over one message is one visit. */
  lemma PassSingle(counter: seq<nat>, stamps: map<Message, Sent>, m: Message)
    requires m in stamps && Fits(stamps[m], |counter|)
    ensures Stored([m], stamps, |counter|)
    ensures Pass(counter, stamps, [m]) == Visit((counter, []), m, stamps[m])
  {
    assert [m][..0] == [];
  }

  /** Leaving out the messages of `d` and then `x` leaves out those of `d + [x]`. */
  lemma MinusSnoc(received: map<Message, Clock>, d: seq<Message>, x: Message)
    ensures received - Elements(d + [x]) == (received - Elements(d)) - {x}
  {
    assert Elements(d + [x]) == Elements(d) + {x};
  }

  /** Taking out `d`, distinct messages of `keys`, leaves |d| fewer. */
  lemma {:induction false} RemovedCount(keys: set<Message>, d: seq<Message>)
    requires Distinct(d) && forall m :: m in d ==> m in keys
    ensures |keys - Elements(d)| == |keys| - |d|
  {
    if d != [] {
      var front, last := d[..|d| - 1], d[|d| - 1];
      assert d == front + [last];
      assert Distinct(front) && last !in front;
      RemovedCount(keys, front);
      var rest := keys - Elements(front);
      assert Elements(d) == Elements(front) + {last};
      assert keys - Elements(d) == rest - {last};
      assert last in rest;
    }
  }

  /** A pass over a visit order takes out as many messages as it delivers. */
  lemma DeliveredCount(counter: seq<nat>, received: map<Message, Clock>, order: seq<Message>)
    requires VisitOrder(order, received) && Stored(order, Snapshot(received), |counter|)
    ensures |received - Elements(Pass(counter, Snapshot(received), order).1)| == |received| - |Pass(counter, Snapshot(received), order).1|
  {
    var d := Pass(counter, Snapshot(received), order).1;
    PassDeliversFromOrder(counter, Snapshot(received), order);
    assert forall m :: m in d ==> m in order;
    RemovedCount(received.Keys, d);
    assert (received - Elements(d)).Keys == received.Keys - Elements(d);
  }

  /** Every stored clock fits `n` processes, so that `deliver` may index it by its owner. */
  ghost predicate Consistent(received: map<Message, Clock>, n: nat)
    reads received.Values
  {
    forall m :: m in received ==> Fits(Value(received[m]), n)
  }

  /** Taking messages out keeps the stored clocks consistent. */
  lemma ConsistentMinus(received: map<Message, Clock>, n: nat, gone: set<Message>)
    requires Consistent(received, n)
    ensures Consistent(received - gone, n)
  {
  }

  class MessageReceptacle {
    var counter: seq<nat>
    var received: map<Message, Clock>

    ghost predicate Valid()
      reads this, received.Values
    {
      Consistent(received, |counter|)
    }

    constructor (n: nat)
      ensures counter == Zeros(n) && received == map[] && Valid()
    {
      counter, received := Zeros(n), map[];
    }

    /** The number of received messages not yet delivered. */
    function Size(): (n: nat)
      reads this
      ensures n == |received.Keys|
      ensures n == 0 <==> received == map[]
    {
      |received|
    }

    /** The number of processes. */
    function Length(): (n: nat)
      reads this
      ensures n == |counter|
    {
      |counter|
    }

    /**
     * Stores `msg` with its decoded clock.  Refused, leaving the receptacle
     * as it was: a timestamp of another length, a timestamp that does not
     * decode, a message already stored.
     */
    method Receive(msg: Message) returns (err: Option<Error>)
      requires Valid()
      modifies this
      ensures Valid() && counter == old(counter)
      ensures err.None? <==> |msg.timestamp.vector| == |counter| && Decode(msg.timestamp, Numerals.MaxBase).Ok? && msg !in old(received)
      ensures |msg.timestamp.vector| != |counter| ==> err == Some(LengthMismatch(|msg.timestamp.vector|, |counter|))
      ensures |msg.timestamp.vector| == |counter| && Decode(msg.timestamp, Numerals.MaxBase).Err? ==> err == Some(Decode(msg.timestamp, Numerals.MaxBase).error)
      ensures |msg.timestamp.vector| == |counter| && Decode(msg.timestamp, Numerals.MaxBase).Ok? && msg in old(received) ==> err == Some(AlreadyReceived)
      ensures err.Some? ==> received == old(received)
      ensures err.None? ==> msg in received && received == old(received)[msg := received[msg]] && fresh(received[msg]) && Size() == old(Size()) + 1
      ensures err.None? ==> received[msg].id == msg.timestamp.id && received[msg].vector == Decode(msg.timestamp, Numerals.MaxBase).value
    {
      if |counter| != |msg.timestamp.vector| {
        return Some(LengthMismatch(|msg.timestamp.vector|, |counter|));
      }
      var ts, e := msg.timestamp.ClockBase(Numerals.MaxBase);
      if e.Some? {
        return e;
      }
      if msg in received {
        return Some(AlreadyReceived);
      }
      received := received[msg := ts];
      err := None;
    }

    /**
     * Delivers `msg`, stamped `ts`, when it is deliverable: the counter of its
     * sender takes the sender's component of `ts`, the message is appended to
     * `delivery` and leaves the receptacle.  The error of a counter already
     * past the timestamp is never raised: deliverability rules it out.
     */
    method Deliver(msg: Message, ts: Clock, delivery: seq<Message>) returns (delivered: seq<Message>, err: Option<Error>, offender: Message?)
      requires Valid() && msg in received && received[msg] == ts
      modifies this
      ensures Valid() && err == None && offender == null
      ensures (counter, delivered) == Visit((old(counter), delivery), msg, Value(ts))
      ensures received == if Deliverable(old(counter), Value(ts)) then old(received) - {msg} else old(received)
    {
      var id := ts.id;
      var noUndeliveredFromProcess := Logical.Compare(counter[id - 1] + 1, ts.vector[id - 1]) == 0;
      var noPriorFromOtherProcesses := true;
      var i := 0;
      while i < |counter|
        invariant 0 <= i <= |counter|
        invariant noPriorFromOtherProcesses
        invariant forall j :: 0 <= j < i && j != id - 1 ==> ts.vector[j] <= counter[j]
      {
        var hasGap := i + 1 != id && Logical.Compare(counter[i], ts.vector[i]) < 0;
        if hasGap {
          noPriorFromOtherProcesses := false;
          break;
        }
        i := i + 1;
      }
      if !noPriorFromOtherProcesses {
        assert i < |counter| && i != id - 1 && counter[i] < ts.vector[i];
      }
      assert noUndeliveredFromProcess && noPriorFromOtherProcesses <==> Deliverable(counter, Value(ts));
      delivered, err, offender := delivery, None, null;
      if noUndeliveredFromProcess && noPriorFromOtherProcesses {
        if Logical.Compare(counter[id - 1], ts.vector[id - 1]) > 0 {
          assert false;
        }
        ConsistentMinus(received, |counter|, {msg});
        counter := counter[id - 1 := ts.vector[id - 1]];
        delivered := delivery + [msg];
        received := received - {msg};
      }
    }

    /**
     * One pass over the received messages in visit order `order`, delivering
     * each message that is deliverable when its turn comes.  A message made
     * deliverable by one visited after it waits for the next pass.
     */
    method Deliverables(order: seq<Message>) returns (delivery: seq<Message>, err: Option<Error>, offender: Message?)
      requires Valid() && VisitOrder(order, received)
      modifies this
      ensures Valid() && err == None && offender == null
      ensures Stored(order, Snapshot(old(received)), |old(counter)|)
      ensures (counter, delivery) == Pass(old(counter), Snapshot(old(received)), order)
      ensures received == old(received) - Elements(delivery)
    {
      delivery, err, offender := [], None, null;
      ghost var counter0, received0, stamps0 := counter, received, Snapshot(received);
      assert order[..0] == [];
      assert delivery == Pass(counter0, stamps0, order[..0]).1;
      var i := 0;
      while i < |order|
        invariant 0 <= i <= |order| && |counter| == |counter0|
        invariant Stored(order, stamps0, |counter0|) && Stored(order[..i], stamps0, |counter0|)
        invariant counter == Pass(counter0, stamps0, order[..i]).0
        invariant delivery == Pass(counter0, stamps0, order[..i]).1
        invariant received == received0 - Elements(delivery)
        invariant err == None && offender == null
        invariant Valid()
      {
        var msg := order[i];
        PassDeliversFromOrder(counter0, stamps0, order[..i]);
        assert msg !in order[..i];
        assert msg in received && received[msg] == received0[msg];
        PassSnoc(counter0, stamps0, order, i);
        assert stamps0[msg] == Value(received[msg]);
        ghost var before := delivery;
        var e, o;
        delivery, e, o := Deliver(msg, received[msg], delivery);
        if delivery != before {
          MinusSnoc(received0, before, msg);
        }
        if e.Some? {
          return delivery, e, o;
        }
        ghost var next := Pass(counter0, stamps0, order[..i + 1]);
        assert counter == next.0 && delivery == next.1;
        i := i + 1;
        assert counter == Pass(counter0, stamps0, order[..i]).0;
        assert delivery == Pass(counter0, stamps0, order[..i]).1;
      }
      assert order[..i] == order;
      assert stamps0 == Snapshot(received0);
    }
  }

  /** A receptacle for `n` processes with nothing delivered; none for a negative `n`. */
  method NewMessageReceptacle(n: int) returns (rcp: MessageReceptacle?)
    ensures rcp == null <==> n < 0
    ensures rcp != null ==> fresh(rcp) && rcp.counter == Zeros(n) && rcp.received == map[] && rcp.Valid()
    ensures rcp != null ==> rcp.Length() == n && rcp.Size() == 0
  {
    if n < 0 {
      return null;
    }
    rcp := new MessageReceptacle(n);
  }

  /*
   * The monitor's passes over the exchange of the receptacle test, on the
   * values of the stored clocks: p1 sends m1 at [1, 0], p2 replies with m2
   * at [1, 1], p1 reports m3 at [2, 1].
   */

  /** m2 arriving alone waits: it depends on m1, which the monitor has not seen. */
  lemma EarlyReportWaits(m2: Message)
    ensures Pass([0, 0], map[m2 := Sent(2, [1, 1])], [m2]) == ([0, 0], [])
  {
    PassSingle([0, 0], map[m2 := Sent(2, [1, 1])], m2);
    assert !Deliverable([0, 0], Sent(2, [1, 1])) by {
      assert Sent(2, [1, 1]).vector[0] > [0, 0][0];
    }
  }

  /** With m1 stored too, a pass visiting m2 first delivers m1 only. */
  lemma FirstMessageDelivered(m1: Message, m2: Message)
    requires m1 != m2
    ensures Pass([0, 0], map[m2 := Sent(2, [1, 1]), m1 := Sent(1, [1, 0])], [m2, m1]) == ([1, 0], [m1])
  {
    var both := map[m2 := Sent(2, [1, 1]), m1 := Sent(1, [1, 0])];
    assert both[m1] == Sent(1, [1, 0]) && both[m2] == Sent(2, [1, 1]);
    PassSingle([0, 0], both, m2);
    assert !Deliverable([0, 0], Sent(2, [1, 1])) by {
      assert Sent(2, [1, 1]).vector[0] > [0, 0][0];
    }
    PassSnoc([0, 0], both, [m2, m1], 1);
    assert [m2, m1][..1] == [m2] && [m2, m1][..2] == [m2, m1];
    assert Deliverable([0, 0], Sent(1, [1, 0]));
    assert [0, 0][0 := 1] == [1, 0] && [] + [m1] == [m1];
  }

  /** The next pass delivers m2. */
  lemma ReplyDelivered(m2: Message)
    ensures Pass([1, 0], map[m2 := Sent(2, [1, 1])], [m2]) == ([1, 1], [m2])
  {
    PassSingle([1, 0], map[m2 := Sent(2, [1, 1])], m2);
    assert Deliverable([1, 0], Sent(2, [1, 1]));
    assert [1, 0][1 := 1] == [1, 1] && [] + [m2] == [m2];
  }

  /**
   * What holds in either visit order: the two passes together deliver p1's
   * message, then the reply, and leave the counter at [1 1].
   */
  lemma TwoPassesAnyOrder(m1: Message, m2: Message)
    requires m1 != m2
    ensures var both := map[m2 := Sent(2, [1, 1]), m1 := Sent(1, [1, 0])];
      Pass([0, 0], both, [m2, m1]).1 + Pass([1, 0], map[m2 := Sent(2, [1, 1])], [m2]).1 == [m1, m2]
      && Pass([1, 0], map[m2 := Sent(2, [1, 1])], [m2]).0 == [1, 1]
    ensures var both := map[m2 := Sent(2, [1, 1]), m1 := Sent(1, [1, 0])];
      Pass([0, 0], both, [m1, m2]).1 + Pass([1, 1], map[], []).1 == [m1, m2]
      && Pass([1, 1], map[], []).0 == [1, 1]
  {
    FirstMessageDelivered(m1, m2);
    ReplyDelivered(m2);
    VisitOrderMatters(m1, m2);
    assert [m1] + [m2] == [m1, m2] && [m1, m2] + [] == [m1, m2];
  }

  /** m3 is delivered as soon as it arrives. */
  lemma ReportDelivered(m3: Message)
    ensures Pass([1, 1], map[m3 := Sent(1, [2, 1])], [m3]) == ([2, 1], [m3])
  {
    PassSingle([1, 1], map[m3 := Sent(1, [2, 1])], m3);
    assert Deliverable([1, 1], Sent(1, [2, 1]));
    assert [1, 1][0 := 2] == [2, 1] && [] + [m3] == [m3];
  }

  /** A pass visiting m1 before m2 delivers both: the order of a pass matters. */
  lemma VisitOrderMatters(m1: Message, m2: Message)
    requires m1 != m2
    ensures Pass([0, 0], map[m2 := Sent(2, [1, 1]), m1 := Sent(1, [1, 0])], [m1, m2]) == ([1, 1], [m1, m2])
  {
    var both := map[m2 := Sent(2, [1, 1]), m1 := Sent(1, [1, 0])];
    assert both[m1] == Sent(1, [1, 0]) && both[m2] == Sent(2, [1, 1]);
    PassSingle([0, 0], both, m1);
    assert Deliverable([0, 0], Sent(1, [1, 0]));
    assert [] + [m1] == [m1] && [m1] + [m2] == [m1, m2];
    assert [0, 0][0 := 1] == [1, 0];
    assert Pass([0, 0], both, [m1]) == ([1, 0], [m1]);
    PassSnoc([0, 0], both, [m1, m2], 1);
    assert [m1, m2][..1] == [m1] && [m1, m2][..2] == [m1, m2];
    assert Deliverable([1, 0], Sent(2, [1, 1]));
    assert [1, 0][1 := 1] == [1, 1];
    assert Visit(([1, 0], [m1]), m2, Sent(2, [1, 1])) == ([1, 1], [m1, m2]);
  }

  /** p1's first send: its clock reads [1, 0]. */
  method FirstSend() returns (clk1: Clock, msg1: Message)
    ensures fresh(clk1) && fresh(msg1) && clk1.id == 1 && clk1.vector == [1, 0]
    ensures msg1.timestamp.id == 1 && |msg1.timestamp.vector| == 2 && Decode(msg1.timestamp, Numerals.MaxBase) == Ok([1, 0])
  {
    var c, _ := NewClockBuilder().Id(1).Length(2).Build();
    clk1 := c;
    clk1.TickLocal();
    msg1 := NewMessage("hey p2! didgeridoo and you can too!", clk1);
  }

  /** p2 receives `msg1` and replies: its clock reads [1, 1]. */
  method Reply(msg1: Message) returns (msg2: Message)
    requires msg1.timestamp.id == 1 && Decode(msg1.timestamp, Numerals.MaxBase) == Ok([1, 0])
    ensures fresh(msg2) && msg2.timestamp.id == 2 && |msg2.timestamp.vector| == 2 && Decode(msg2.timestamp, Numerals.MaxBase) == Ok([1, 1])
  {
    var clk2, _ := NewClockBuilder().Id(2).Length(2).Build();
    var receipt1, _ := msg1.timestamp.Clock();
    var _ := clk2.TickReceive(receipt1);
    assert clk2.vector == [1, 0];
    clk2.TickLocal();
    assert clk2.id == 2 && clk2.vector == [1, 1];
    msg2 := NewMessage("hey p1! what's a didgeridoo?!", clk2);
  }

  /** p1 receives `msg2` and reports a local event: its clock reads [2, 1]. */
  method Report(clk1: Clock, msg2: Message) returns (msg3: Message)
    requires clk1.id == 1 && clk1.vector == [1, 0]
    requires msg2.timestamp.id == 2 && Decode(msg2.timestamp, Numerals.MaxBase) == Ok([1, 1])
    modifies clk1
    ensures fresh(msg3) && msg3.timestamp.id == 1 && Decode(msg3.timestamp, Numerals.MaxBase) == Ok([2, 1])
  {
    var receipt2, _ := msg2.timestamp.Clock();
    var _ := clk1.TickReceive(receipt2);
    assert clk1.vector == [1, 1];
    clk1.TickLocal();
    assert clk1.id == 1 && clk1.vector == [2, 1];
    msg3 := NewMessage("hey p0! I did the thing!", clk1);
  }

  /** A new receptacle for two processes: counter [0 0], nothing stored, nothing deliverable. */
  method EmptyReceptacleScenario() returns (length: nat, size: nat, counter: seq<nat>, delivery: seq<Message>)
    ensures length == 2 && size == 0 && counter == [0, 0] && delivery == []
  {
    var rcp := NewMessageReceptacle(2);
    length, size, counter := rcp.Length(), rcp.Size(), rcp.counter;
    assert Elements<Message>([]) == {};
    var err, offender;
    delivery, err, offender := rcp.Deliverables([]);
  }

  /**
   * The monitor of the receptacle test, on the heap: p2's reply arrives
   * before p1's first message, and both are stored with their decoded
   * clocks.
   */
  method StoreExchange() returns (msg1: Message, msg2: Message, rcp: MessageReceptacle)
    ensures fresh(rcp) && rcp.Valid() && rcp.counter == [0, 0] && rcp.Size() == 2
    ensures msg1 != msg2 && rcp.received.Keys == {msg1, msg2}
    ensures Value(rcp.received[msg1]) == Sent(1, [1, 0]) && Value(rcp.received[msg2]) == Sent(2, [1, 1])
  {
    var clk1;
    clk1, msg1 := FirstSend();
    msg2 := Reply(msg1);
    rcp := ReceiveBoth(msg1, msg2);
  }

  /** A new receptacle for two processes receives the reply, then p1's first message. */
  method ReceiveBoth(msg1: Message, msg2: Message) returns (rcp: MessageReceptacle)
    requires msg1 != msg2
    requires |msg1.timestamp.vector| == 2 && msg1.timestamp.id == 1 && Decode(msg1.timestamp, Numerals.MaxBase) == Ok([1, 0])
    requires |msg2.timestamp.vector| == 2 && msg2.timestamp.id == 2 && Decode(msg2.timestamp, Numerals.MaxBase) == Ok([1, 1])
    ensures fresh(rcp) && rcp.Valid() && rcp.counter == [0, 0] && rcp.Size() == 2
    ensures rcp.received.Keys == {msg1, msg2}
    ensures Value(rcp.received[msg1]) == Sent(1, [1, 0]) && Value(rcp.received[msg2]) == Sent(2, [1, 1])
  {
    rcp := ReceiveReply(msg2);
    var stored2 := rcp.received[msg2];
    var err1 := rcp.Receive(msg1);
    assert rcp.received[msg2] == stored2;
  }

  /** A new receptacle for two processes receives the reply. */
  method ReceiveReply(msg2: Message) returns (rcp: MessageReceptacle)
    requires |msg2.timestamp.vector| == 2 && msg2.timestamp.id == 2 && Decode(msg2.timestamp, Numerals.MaxBase) == Ok([1, 1])
    ensures fresh(rcp) && rcp.Valid() && rcp.counter == [0, 0] && rcp.Size() == 1
    ensures rcp.received.Keys == {msg2} && fresh(rcp.received[msg2]) && Value(rcp.received[msg2]) == Sent(2, [1, 1])
  {
    var r := NewMessageReceptacle(2);
    rcp := r;
    var err2 := rcp.Receive(msg2);
  }

  /** A pass of that monitor visiting the reply first delivers p1's message alone. */
  method MonitorFirstPass() returns (msg1: Message, msg2: Message, stamps: map<Message, Sent>, delivery: seq<Message>, counter: seq<nat>)
    ensures stamps == map[msg2 := Sent(2, [1, 1]), msg1 := Sent(1, [1, 0])]
    ensures delivery == [msg1] && counter == [1, 0]
  {
    var rcp;
    msg1, msg2, rcp := StoreExchange();
    stamps := Snapshot(rcp.received);
    StoredPair(rcp.received, msg1, msg2);
    FirstMessageDelivered(msg1, msg2);
    var err, offender;
    delivery, err, offender := rcp.Deliverables([msg2, msg1]);
    counter := rcp.counter;
  }

  /** Two stored messages, visited reply first, with the values of their clocks. */
  lemma StoredPair(received: map<Message, Clock>, m1: Message, m2: Message)
    requires m1 != m2 && received.Keys == {m1, m2}
    requires Value(received[m1]) == Sent(1, [1, 0]) && Value(received[m2]) == Sent(2, [1, 1])
    ensures VisitOrder([m2, m1], received)
    ensures Snapshot(received) == map[m2 := Sent(2, [1, 1]), m1 := Sent(1, [1, 0])]
  {
    assert Elements([m2, m1]) == {m1, m2};
  }

  /** A message is refused a second time, and so is a timestamp of another length. */
  method ReceiveScenario(msg: Message) returns (first: Option<Error>, again: Option<Error>, wrongLength: Option<Error>)
    requires |msg.timestamp.vector| == 2 && Decode(msg.timestamp, Numerals.MaxBase) == Ok([1, 0])
    ensures first == None && again == Some(AlreadyReceived) && wrongLength == Some(LengthMismatch(2, 3))
  {
    var rcp := NewMessageReceptacle(2);
    first := rcp.Receive(msg);
    again := rcp.Receive(msg);
    var wide := NewMessageReceptacle(3);
    wrongLength := wide.Receive(msg);
  }
}
