/** One client connection and its guarded state (internal/models/context.go). Frames are kept as values, not bytes.
    The ghost log records every frame ever put on the queue; `isNew` marks those that first announce a clip. */
module Connections {
  import opened Base
  import opened Messages

  datatype Frame =
    | Welcome(latest: Option<LatestText>)
    | ClipFrame(id: gostring, text: LatestText)
    | AckFrame(id: gostring, text: LatestText)
    | RateLimitedFrame(id: gostring)
    | PingFrame(now: int)
    | ByeFrame
    | ErrorFrame

  datatype Delivery = Delivery(frame: Frame, isNew: bool)

  /** Everything a connection holds. `sent` are the frames the send loop has taken. */
  datatype Link = Link(clientId: gostring, clientName: gostring, capacity: nat, closed: bool, queue: seq<Frame>,
                       sent: seq<Frame>, log: seq<Delivery>, helloReceived: bool, helloDeadline: int,
                       helloTimeoutStarted: bool, pongAwaited: bool, lastSeen: int, lastPingAt: int)

  function NewLink(clientId: gostring, clientName: gostring, capacity: nat, now: int, helloTimeout: int): Link {
    Link(clientId, clientName, capacity, false, [], [], [], false, now + helloTimeout, false, false, now, now)
  }

  /** Enqueue, or close when the queue is full. */
  function Offered(l: Link, d: Delivery): Link {
    if |l.queue| < l.capacity then l.(queue := l.queue + [d.frame], log := l.log + [d]) else l.(closed := true)
  }

  function Frames(log: seq<Delivery>): (fs: seq<Frame>)
    ensures |fs| == |log|
  {
    if log == [] then [] else Frames(log[..|log| - 1]) + [log[|log| - 1].frame]
  }

  /** The texts first announced by the log, in order. */
  function FreshTexts(log: seq<Delivery>): seq<LatestText> {
    if log == [] then []
    else FreshTexts(log[..|log| - 1]) + FreshIn(log[|log| - 1])
  }

  function FreshIn(d: Delivery): seq<LatestText> {
    if d.isNew && (d.frame.ClipFrame? || d.frame.AckFrame?) then [d.frame.text] else []
  }

  /** What a client that follows its frames believes the current text to be; nothing before the first one. */
  function Believed(log: seq<Delivery>): Option<Option<LatestText>> {
    if log == [] then None
    else if log[|log| - 1].frame.Welcome? then Some(log[|log| - 1].frame.latest)
    else if FreshIn(log[|log| - 1]) != [] then Some(Some(log[|log| - 1].frame.text))
    else Believed(log[..|log| - 1])
  }

  lemma LogStep(log: seq<Delivery>, d: Delivery)
    ensures Frames(log + [d]) == Frames(log) + [d.frame]
    ensures FreshTexts(log + [d]) == FreshTexts(log) + FreshIn(d)
    ensures Believed(log + [d]) ==
            if d.frame.Welcome? then Some(d.frame.latest) else if FreshIn(d) != [] then Some(Some(d.frame.text)) else Believed(log)
  {
    assert (log + [d])[..|log|] == log;
  }

  /** Frames leave in the order they were queued, none is lost, and the queue is bounded. */
  ghost predicate InOrder(l: Link) {
    l.sent + l.queue == Frames(l.log) && |l.queue| <= l.capacity
  }

  lemma OfferedInOrder(l: Link, d: Delivery)
    requires InOrder(l)
    ensures InOrder(Offered(l, d))
  {
    if |l.queue| < l.capacity {
      LogStep(l.log, d);
      assert l.sent + (l.queue + [d.frame]) == l.sent + l.queue + [d.frame];
    }
  }

  /** The send loop takes the next frame. */
  function Advanced(l: Link): (r: Link)
    requires l.queue != []
    ensures InOrder(l) ==> InOrder(r)
  {
    assert l.sent + l.queue == l.sent + [l.queue[0]] + l.queue[1..];
    l.(sent := l.sent + [l.queue[0]], queue := l.queue[1..])
  }

  class Connection {
    const clientId: gostring
    const clientName: gostring
    const capacity: nat
    const helloDeadline: int
    var closed: bool
    var cancelled: bool
    var queue: seq<Frame>
    var helloReceived: bool
    var helloTimeoutStarted: bool
    var pongAwaited: bool
    var lastSeen: int
    var lastPingAt: int
    ghost var sent: seq<Frame>
    ghost var log: seq<Delivery>

    ghost function AsLink(): Link
      reads this
    {
      Link(clientId, clientName, capacity, closed, queue, sent, log, helloReceived, helloDeadline, helloTimeoutStarted,
           pongAwaited, lastSeen, lastPingAt)
    }

    constructor (clientId: gostring, clientName: gostring, capacity: nat, now: int, helloTimeout: int)
      ensures AsLink() == NewLink(clientId, clientName, capacity, now, helloTimeout) && InOrder(AsLink())
    {
      this.clientId := clientId;
      this.clientName := clientName;
      this.capacity := capacity;
      helloDeadline := now + helloTimeout;
      closed := false;
      cancelled := false;
      queue := [];
      helloReceived := false;
      helloTimeoutStarted := false;
      pongAwaited := false;
      lastSeen := now;
      lastPingAt := now;
      sent := [];
      log := [];
    }

    /** The compare-and-set guard: only the first call answers true. */
    method MarkClosed() returns (first: bool)
      modifies this`closed
      ensures AsLink() == old(AsLink()).(closed := true)
      ensures first <==> !old(closed)
    {
      if closed {
        return false;
      }
      closed := true;
      first := true;
    }

    method TryEnqueueSend(frame: Frame, ghost isNew: bool) returns (ok: bool)
      modifies this`queue, this`log
      ensures ok <==> |old(queue)| < capacity
      ensures AsLink() == if ok then Offered(old(AsLink()), Delivery(frame, isNew)) else old(AsLink())
    {
      if |queue| < capacity {
        queue := queue + [frame];
        log := log + [Delivery(frame, isNew)];
        return true;
      }
      ok := false;
    }

    /** What every sender does: enqueue, or close and cancel once when the queue is full. */
    method Offer(frame: Frame, ghost isNew: bool)
      modifies this
      ensures AsLink() == Offered(old(AsLink()), Delivery(frame, isNew))
    {
      var queued := TryEnqueueSend(frame, isNew);
      if !queued {
        var first := MarkClosed();
        if first {
          cancelled := true;
        }
      }
    }

    /** The send loop takes one frame. */
    method TakeNext() returns (frame: Frame)
      requires queue != []
      modifies this`queue, this`sent
      ensures frame == old(queue)[0] && AsLink() == Advanced(old(AsLink()))
    {
      frame := queue[0];
      sent := sent + [frame];
      queue := queue[1..];
    }

    method SetLastSeen(t: int)
      modifies this`lastSeen
      ensures AsLink() == old(AsLink()).(lastSeen := t)
    {
      lastSeen := t;
    }

    method SetLastPingAt(t: int)
      modifies this`lastPingAt
      ensures AsLink() == old(AsLink()).(lastPingAt := t)
    {
      lastPingAt := t;
    }

    method SetHelloReceived(received: bool)
      modifies this`helloReceived
      ensures AsLink() == old(AsLink()).(helloReceived := received)
    {
      helloReceived := received;
    }

    method MarkPingAwaitingPong()
      modifies this`pongAwaited
      ensures AsLink() == old(AsLink()).(pongAwaited := true)
    {
      pongAwaited := true;
    }

    method TryTakePongAwaiting() returns (ok: bool)
      modifies this`pongAwaited
      ensures ok == old(pongAwaited) && AsLink() == old(AsLink()).(pongAwaited := false)
    {
      if !pongAwaited {
        return false;
      }
      pongAwaited := false;
      ok := true;
    }

    method TryStartHelloTimeout() returns (ok: bool)
      modifies this`helloTimeoutStarted
      ensures ok <==> !old(helloTimeoutStarted) && !closed
      ensures AsLink() == if ok then old(AsLink()).(helloTimeoutStarted := true) else old(AsLink())
    {
      if helloTimeoutStarted || closed {
        return false;
      }
      helloTimeoutStarted := true;
      ok := true;
    }
  }
}
