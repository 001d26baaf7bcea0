/**
 * The replay driver: a recorder holding the current timestamp, a replayer
 * that hands payloads to one of two legs, and the loop that feeds every
 * admitted packet of a capture through them in capture order.
 *
 * The session engine behind the legs is not modelled; what it observes is
 * kept as a log of events. A delivery event carries the timestamp the
 * recorder held when the payload reached the engine, which is the
 * timestamp the engine stamps its recording entries with.
 */
module Replay {
  import opened Wrappers
  import opened ExportedPdu
  import opened Session

  /** One capture record: its capture time in integer microseconds and its exported-PDU bytes. */
  datatype Packet = Packet(timeMicros: int, load: seq<byte>)

  /** What the session engine observes. */
  datatype Event =
    | Deliver(leg: Leg, data: seq<byte>, stamp: Option<int>)
    | Close(stamp: Option<int>)

  /**
   * Capture time to recorder milliseconds, `int(timeStamp * 1000)`:
   * Python's `int` truncates toward zero, also for times before the epoch.
   */
  function ToMillis(micros: int): (ms: int)
    ensures micros >= 0 ==> 0 <= ms && ms * 1000 <= micros < ms * 1000 + 1000
    ensures micros < 0 ==> ms <= 0 && ms * 1000 - 1000 < micros <= ms * 1000
  {
    if micros >= 0 then micros / 1000 else -((-micros) / 1000)
  }

  /** The packet passes the endpoint filter of the main loop. */
  predicate Admitted(p: Packet, client: string, server: string) {
    var f := ParseExportedPdu(p.load);
    Admit(f.source, f.destination, client, server)
  }

  /** The delivery an admitted packet produces: its payload, on its leg, at its own time. */
  function Delivery(p: Packet, client: string): Event {
    var f := ParseExportedPdu(p.load);
    Deliver(LegOf(f.source, client), f.data, Some(ToMillis(p.timeMicros)))
  }

  function Step(p: Packet, client: string, server: string): seq<Event> {
    if Admitted(p, client, server) then [Delivery(p, client)] else []
  }

  /** The events a whole capture produces, in capture order; skipped packets produce none. */
  function Replay(packets: seq<Packet>, client: string, server: string): seq<Event> {
    FlatMap(packets, StepFn(client, server))
  }

  /** The per-packet step for one session, as a function value. */
  function StepFn(client: string, server: string): Packet -> seq<Event> {
    p => Step(p, client, server)
  }

  /**
   * The results of `f` on every packet, concatenated in order. Stating
   * the order facts once for any `f` keeps the proofs about `Replay`
   * from unfolding record parsing where it plays no part.
   */
  function FlatMap(xs: seq<Packet>, f: Packet -> seq<Event>): seq<Event> {
    if xs == [] then [] else f(xs[0]) + FlatMap(xs[1..], f)
  }

  lemma {:induction false} FlatMapAppend(a: seq<Packet>, b: seq<Packet>, f: Packet -> seq<Event>)
    ensures FlatMap(a + b, f) == FlatMap(a, f) + FlatMap(b, f)
  {
    if a == [] {
      assert a + b == b;
    } else {
      var c := a + b;
      assert c[0] == a[0] && c[1..] == a[1..] + b;
      FlatMapAppend(a[1..], b, f);
    }
  }

  /** The timestamp the recorder holds after a replay that started from `initial`. */
  function StampAfter(packets: seq<Packet>, client: string, server: string, initial: Option<int>): Option<int> {
    var events := Replay(packets, client, server);
    if events == [] then initial else events[|events| - 1].stamp
  }

  /** The payloads the engine received on one leg, in order. */
  function Received(log: seq<Event>, leg: Leg): seq<seq<byte>> {
    if log == [] then []
    else (if log[0].Deliver? && log[0].leg == leg then [log[0].data] else []) + Received(log[1..], leg)
  }

  /** The mutable timestamp holder the session engine reads when it writes a recording entry. */
  class Recorder {
    var currentTimeStamp: Option<int>

    constructor ()
      ensures currentTimeStamp == None
    {
      currentTimeStamp := None;
    }

    method GetCurrentTimeStamp() returns (t: Option<int>)
      ensures t == currentTimeStamp
    {
      t := currentTimeStamp;
    }

    method SetTimeStamp(t: int)
      modifies this
      ensures currentTimeStamp == Some(t)
    {
      currentTimeStamp := Some(t);
    }
  }

  /** The replayer: its recorder and the log of what its two legs handed to the engine. */
  class Replayer {
    const recorder: Recorder
    var log: seq<Event>

    constructor ()
      ensures fresh(recorder) && recorder.currentTimeStamp == None
      ensures log == []
    {
      recorder := new Recorder();
      log := [];
    }

    /** Sets the recorder's time from a capture time; nothing is delivered. */
    method SetTimeStamp(micros: int)
      modifies recorder
      ensures recorder.currentTimeStamp == Some(ToMillis(micros))
      ensures log == old(log)
    {
      recorder.SetTimeStamp(ToMillis(micros));
    }

    /** Hands `data` to exactly one leg, stamped with the recorder's current time. */
    method Recv(data: seq<byte>, fromClient: bool)
      modifies this
      ensures log == old(log) + [Deliver(if fromClient then Client else Server, data, recorder.currentTimeStamp)]
      ensures recorder.currentTimeStamp == old(recorder.currentTimeStamp)
    {
      var stamp := recorder.GetCurrentTimeStamp();
      if fromClient {
        log := log + [Deliver(Client, data, stamp)];
      } else {
        log := log + [Deliver(Server, data, stamp)];
      }
    }

    /** The main loop: filter each packet, then set its time and deliver its payload. */
    method Run(packets: seq<Packet>, client: string, server: string)
      modifies this, recorder
      ensures log == old(log) + Replay(packets, client, server)
      ensures recorder.currentTimeStamp
           == StampAfter(packets, client, server, old(recorder.currentTimeStamp))
    {
      var i := 0;
      while i < |packets|
        invariant 0 <= i <= |packets|
        invariant log == old(log) + Replay(packets[..i], client, server)
        invariant recorder.currentTimeStamp
               == StampAfter(packets[..i], client, server, old(recorder.currentTimeStamp))
      {
        var packet := packets[i];
        assert packets[..i + 1] == packets[..i] + [packet];
        ReplayExtend(packets[..i], packet, client, server);
        StampAfterExtend(packets[..i], packet, client, server, old(recorder.currentTimeStamp));
        var f := ParseExportedPdu(packet.load);
        if !Admit(f.source, f.destination, client, server) {
          i := i + 1;
          continue;
        }
        SetTimeStamp(packet.timeMicros);
        Recv(f.data, f.source == client);
        i := i + 1;
      }
      assert packets[..i] == packets;
    }

    /**
     * The close step after the loop. Whether the engine's serializer
     * accepts the close record is outside the model and comes in as
     * `serializerAccepts`; a rejection only yields `clean == false`
     * (the diagnostic) and leaves the log as it was.
     */
    method Finish(serializerAccepts: bool) returns (clean: bool)
      modifies this
      ensures clean == serializerAccepts
      ensures log == old(log) + (if serializerAccepts then [Close(recorder.currentTimeStamp)] else [])
    {
      if serializerAccepts {
        var stamp := recorder.GetCurrentTimeStamp();
        log := log + [Close(stamp)];
        clean := true;
      } else {
        clean := false;
      }
    }
  }

  /**
   * A whole conversion: a fresh replayer, the loop over the capture, then
   * the close step. The engine sees exactly the admitted packets'
   * deliveries in capture order, then a close record unless the
   * serializer rejects it; an empty capture ends normally too.
   */
  method Convert(packets: seq<Packet>, client: string, server: string, serializerAccepts: bool)
    returns (events: seq<Event>, clean: bool)
    ensures clean == serializerAccepts
    ensures events == Replay(packets, client, server)
                    + (if serializerAccepts then [Close(StampAfter(packets, client, server, None))] else [])
  {
    var replayer := new Replayer();
    replayer.Run(packets, client, server);
    clean := replayer.Finish(serializerAccepts);
    events := replayer.log;
  }

  /** A non-empty capture replays its first packet, then the rest. */
  lemma ReplayCons(packets: seq<Packet>, client: string, server: string)
    requires packets != []
    ensures Replay(packets, client, server)
         == Step(packets[0], client, server) + Replay(packets[1..], client, server)
  {
  }

  /** Replaying two captures one after the other is replaying their concatenation. */
  lemma ReplayAppend(a: seq<Packet>, b: seq<Packet>, client: string, server: string)
    ensures Replay(a + b, client, server) == Replay(a, client, server) + Replay(b, client, server)
  {
    FlatMapAppend(a, b, StepFn(client, server));
  }

  /** A packet outside the session changes nothing; an admitted one adds exactly its own delivery. */
  lemma ReplayExtend(packets: seq<Packet>, p: Packet, client: string, server: string)
    ensures !Admitted(p, client, server) ==> Replay(packets + [p], client, server) == Replay(packets, client, server)
    ensures Admitted(p, client, server) ==>
      Replay(packets + [p], client, server) == Replay(packets, client, server) + [Delivery(p, client)]
  {
    ReplayAppend(packets, [p], client, server);
    ReplayCons([p], client, server);
    assert [p][1..] == [];
  }

  /** The recorder's final time is the last admitted packet's own time. */
  lemma StampAfterExtend(packets: seq<Packet>, p: Packet, client: string, server: string, initial: Option<int>)
    ensures StampAfter(packets + [p], client, server, initial)
         == if Admitted(p, client, server) then Some(ToMillis(p.timeMicros))
            else StampAfter(packets, client, server, initial)
  {
    ReplayExtend(packets, p, client, server);
  }

  /** One event per admitted packet: never more events than packets, as many only when all are admitted. */
  lemma {:induction false} ReplayLength(packets: seq<Packet>, client: string, server: string)
    ensures |Replay(packets, client, server)| <= |packets|
    ensures |Replay(packets, client, server)| == |packets|
        <==> forall i :: 0 <= i < |packets| ==> Admitted(packets[i], client, server)
  {
    if packets != [] {
      ReplayLength(packets[1..], client, server);
      if !Admitted(packets[0], client, server) {
        assert |Replay(packets, client, server)| < |packets|;
      }
      assert forall i :: 1 <= i < |packets| ==> packets[i] == packets[1..][i - 1];
    }
  }

  /**
   * An admitted packet's delivery sits in the replay at the position that
   * counts the admitted packets before it.
   */
  lemma ReplayPosition(packets: seq<Packet>, i: nat, client: string, server: string)
    requires i < |packets| && Admitted(packets[i], client, server)
    ensures |Replay(packets[..i], client, server)| < |Replay(packets, client, server)|
    ensures Replay(packets, client, server)[|Replay(packets[..i], client, server)|] == Delivery(packets[i], client)
  {
    assert packets == packets[..i] + [packets[i]] + packets[i + 1..];
    ReplayAppend(packets[..i] + [packets[i]], packets[i + 1..], client, server);
    ReplayExtend(packets[..i], packets[i], client, server);
  }

  /**
   * Deliveries keep capture order: an admitted packet earlier in the
   * capture is delivered strictly earlier, whatever the two timestamps are.
   */
  lemma ReplayKeepsCaptureOrder(packets: seq<Packet>, i: nat, j: nat, client: string, server: string)
    requires i < j < |packets|
    requires Admitted(packets[i], client, server) && Admitted(packets[j], client, server)
    ensures |Replay(packets[..i], client, server)| < |Replay(packets[..j], client, server)| < |Replay(packets, client, server)|
    ensures Replay(packets, client, server)[|Replay(packets[..i], client, server)|] == Delivery(packets[i], client)
    ensures Replay(packets, client, server)[|Replay(packets[..j], client, server)|] == Delivery(packets[j], client)
  {
    ReplayPosition(packets, i, client, server);
    ReplayPosition(packets, j, client, server);
    ReplayPosition(packets[..j], i, client, server);
    assert packets[..j][..i] == packets[..i];
  }

  /**
   * Every event of a replay is the delivery of one admitted packet of the
   * capture: its payload, on the leg its source selects, stamped with that
   * packet's own time.
   */
  lemma {:induction false} ReplayEventOrigin(packets: seq<Packet>, k: nat, client: string, server: string)
    returns (i: nat)
    requires k < |Replay(packets, client, server)|
    ensures i < |packets| && Admitted(packets[i], client, server)
    ensures Replay(packets, client, server)[k] == Delivery(packets[i], client)
  {
    var head, tail := Step(packets[0], client, server), Replay(packets[1..], client, server);
    ReplayCons(packets, client, server);
    if k < |head| {
      i := 0;
    } else {
      var j := ReplayEventOrigin(packets[1..], k - |head|, client, server);
      assert packets[j + 1] == packets[1..][j];
      i := j + 1;
    }
  }

  /** A delivery reaches exactly one leg: the other leg's stream is unchanged. */
  lemma {:induction false} ReceivedAppend(log: seq<Event>, e: Event, leg: Leg)
    ensures Received(log + [e], leg)
         == Received(log, leg) + (if e.Deliver? && e.leg == leg then [e.data] else [])
  {
    if log != [] {
      assert (log + [e])[1..] == log[1..] + [e];
      ReceivedAppend(log[1..], e, leg);
    }
  }

  /**
   * Timestamps pass through as given: two admitted packets are delivered
   * in capture order, each with its own time, whether time goes forward or back.
   */
  lemma TimestampsPassThrough(p1: Packet, p2: Packet, client: string, server: string)
    requires Admitted(p1, client, server) && Admitted(p2, client, server)
    ensures Replay([p1, p2], client, server) == [Delivery(p1, client), Delivery(p2, client)]
    ensures Replay([p1, p2], client, server)[0].stamp == Some(ToMillis(p1.timeMicros))
    ensures Replay([p1, p2], client, server)[1].stamp == Some(ToMillis(p2.timeMicros))
  {
    ReplayExtend([p1], p2, client, server);
    ReplayExtend([], p1, client, server);
    assert [p1] + [p2] == [p1, p2] && [] + [p1] == [p1];
  }

  /**
   * A client packet, an unrelated packet and a server reply: the engine
   * receives the first payload on the client leg and the reply on the
   * server leg, each at its own time, and nothing for the unrelated one.
   */
  lemma ClientUnrelatedServerScenario(p1: Packet, p2: Packet, p3: Packet, client: string, server: string)
    requires client != server
    requires ParseExportedPdu(p1.load).source == client && ParseExportedPdu(p1.load).destination == server
    requires ParseExportedPdu(p2.load).source !in [client, server]
    requires ParseExportedPdu(p3.load).source == server && ParseExportedPdu(p3.load).destination == client
    ensures Replay([p1, p2, p3], client, server)
         == [Deliver(Client, ParseExportedPdu(p1.load).data, Some(ToMillis(p1.timeMicros))),
             Deliver(Server, ParseExportedPdu(p3.load).data, Some(ToMillis(p3.timeMicros)))]
  {
    ReplayExtend([], p1, client, server);
    ReplayExtend([p1], p2, client, server);
    ReplayExtend([p1, p2], p3, client, server);
    assert [] + [p1] == [p1] && [p1] + [p2] == [p1, p2] && [p1, p2] + [p3] == [p1, p2, p3];
  }
}
