/** The packets a driver puts on the session bus, and the samples they carry. */
module SessionFeed {
  import opened Streams

  datatype Packet<T> =
    | Header
    | MetaLogic
    | Trigger
    | FrameBegin
    | FrameEnd
    | Logic(samples: seq<T>)
    | Analog(samples: seq<T>)
    | End

  function Data<T>(p: Packet<T>): seq<T> {
    if p.Logic? || p.Analog? then p.samples else []
  }

  /** All the samples in the packets, in order. */
  function Payload<T>(packets: seq<Packet<T>>): seq<T> {
    if packets == [] then [] else Payload(packets[..|packets| - 1]) + Data(packets[|packets| - 1])
  }

  lemma PayloadSnoc<T>(packets: seq<Packet<T>>, p: Packet<T>)
    ensures Payload(packets + [p]) == Payload(packets) + Data(p)
  {
    assert (packets + [p])[..|packets|] == packets;
  }

  lemma {:induction false} PayloadOfJoin<T>(packets: seq<Packet<T>>, more: seq<Packet<T>>)
    ensures Payload(packets + more) == Payload(packets) + Payload(more)
    decreases |more|
  {
    if more == [] {
      assert packets + more == packets;
    } else {
      var init, last := more[..|more| - 1], more[|more| - 1];
      PayloadOfJoin(packets, init);
      PayloadSnoc(packets + init, last);
      LastLast(packets, more);
    }
  }

  /** How many packets are TRIGGER packets. */
  function Triggers<T>(packets: seq<Packet<T>>): nat {
    if packets == [] then 0
    else Triggers(packets[..|packets| - 1]) + (if packets[|packets| - 1].Trigger? then 1 else 0)
  }

  lemma TriggersSnoc<T>(packets: seq<Packet<T>>, p: Packet<T>)
    ensures Triggers(packets + [p]) == Triggers(packets) + (if p.Trigger? then 1 else 0)
  {
    assert (packets + [p])[..|packets|] == packets;
  }

  lemma {:induction false} TriggersOfJoin<T>(packets: seq<Packet<T>>, more: seq<Packet<T>>)
    ensures Triggers(packets + more) == Triggers(packets) + Triggers(more)
    decreases |more|
  {
    if more == [] {
      assert packets + more == packets;
    } else {
      var init, last := more[..|more| - 1], more[|more| - 1];
      TriggersOfJoin(packets, init);
      TriggersSnoc(packets + init, last);
      LastLast(packets, more);
    }
  }
}
