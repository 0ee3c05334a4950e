/** The browser's live-update connection (frontend/src/api/websocket.ts):
    reconnect with doubling back-off unless the close was asked for, and a
    listener list with unsubscribe. The browser's socket events are the
    methods `OnOpen`, `OnMessage` and `OnClose`; the timer `setTimeout`
    arms is recorded in `scheduled`. */
module WebSocket {
  import opened Wrappers
  import opened Ordering

  const DefaultUrl := "ws://localhost:8080/ws"
  const InitialTimeout := 3000
  const MaxTimeout := 30000

  /** A listener, known by its identity (the `!==` in unsubscribe). */
  type Listener = nat

  /** The fields of `WSMessage` the model keeps; `data` and `positions`
      are untyped JSON. */
  datatype WSMessage = WSMessage(kind: string, count: Option<int>, exchange: Option<string>,
                                 positionId: Option<int>, withdrawalId: Option<int>, incomeId: Option<int>)

  /** A reconnect armed by a close: `connect(url)` after `delay` ms. */
  datatype Reconnect = Reconnect(delay: int, url: string)

  /** A call of a listener with a message. */
  datatype Delivery = Delivery(listener: Listener, message: WSMessage)

  /** `Math.min(t * 2, 30000)`. */
  function NextTimeout(t: int): (r: int)
    requires InitialTimeout <= t <= MaxTimeout
    ensures InitialTimeout <= r <= MaxTimeout
    ensures r == MaxTimeout || r == 2 * t
    ensures t < r || t == MaxTimeout
  {
    if t * 2 < MaxTimeout then t * 2 else MaxTimeout
  }

  function Pow2(k: nat): (r: nat)
    ensures r >= 1
  {
    if k == 0 then 1 else 2 * Pow2(k - 1)
  }

  /** The timeout after `k` unexpected closes with no successful open
      between them. */
  function TimeoutAfter(k: nat): (r: int)
    ensures InitialTimeout <= r <= MaxTimeout
  {
    if k == 0 then InitialTimeout else NextTimeout(TimeoutAfter(k - 1))
  }

  /** The back-off is `3000 * 2^k` capped at 30000. */
  lemma {:induction false} TimeoutAfterDoubles(k: nat)
    ensures TimeoutAfter(k) == if InitialTimeout * Pow2(k) < MaxTimeout then InitialTimeout * Pow2(k) else MaxTimeout
  {
    if k > 0 {
      TimeoutAfterDoubles(k - 1);
      if InitialTimeout * Pow2(k - 1) >= MaxTimeout {
        assert InitialTimeout * Pow2(k) >= MaxTimeout;
      }
    }
  }

  /** The delays of successive reconnects are 3, 6, 12 and 24 seconds,
      then 30 seconds for ever. */
  lemma CapReachedAfterFourCloses(k: nat)
    ensures k >= 4 ==> TimeoutAfter(k) == MaxTimeout
    ensures TimeoutAfter(1) == 6000 && TimeoutAfter(2) == 12000 && TimeoutAfter(3) == 24000
  {
    TimeoutAfterDoubles(k);
    if k >= 4 {
      assert Pow2(k) >= Pow2(4) by { Pow2Grows(4, k); }
    }
    assert TimeoutAfter(3) == 24000 by { assert TimeoutAfter(1) == 6000; }
  }

  lemma {:induction false} Pow2Grows(j: nat, k: nat)
    requires j <= k
    ensures Pow2(j) <= Pow2(k)
  {
    if j < k {
      Pow2Grows(j, k - 1);
    }
  }

  /** The listeners left by unsubscribing `listener`. */
  function NotListener(listener: Listener): Listener -> bool {
    l => l != listener
  }

  /** Unsubscribing removes every registration of that listener and keeps
      every other one, in order. */
  lemma UnsubscribeRemovesAll(ls: seq<Listener>, listener: Listener)
    ensures listener !in Filter(ls, NotListener(listener))
    ensures forall l :: l != listener ==> multiset(Filter(ls, NotListener(listener)))[l] == multiset(ls)[l]
  {
    forall l ensures multiset(Filter(ls, NotListener(listener)))[l] == if l != listener then multiset(ls)[l] else 0 {
      FilterMultiset(ls, NotListener(listener), l);
    }
    assert multiset(Filter(ls, NotListener(listener)))[listener] == 0;
  }

  class WebSocketService {
    /** The url of the current socket, or `null`. */
    var ws: Option<string>
    var listeners: seq<Listener>
    var reconnectTimeout: int
    var isManualClose: bool
    /** The reconnects armed so far, in order. */
    var scheduled: seq<Reconnect>
    /** The reconnects armed since the last successful open. */
    ghost var closesSinceOpen: nat

    ghost predicate Valid()
      reads this
    {
      && InitialTimeout <= reconnectTimeout <= MaxTimeout
      && reconnectTimeout == TimeoutAfter(closesSinceOpen)
    }

    constructor ()
      ensures Valid()
      ensures ws == None && listeners == [] && reconnectTimeout == InitialTimeout && !isManualClose && scheduled == []
    {
      ws := None;
      listeners := [];
      reconnectTimeout := InitialTimeout;
      isManualClose := false;
      scheduled := [];
      closesSinceOpen := 0;
    }

    /** `connect(url)`: `failed` when the `WebSocket` constructor throws, in
        which case the old socket stays. */
    method Connect(url: string, failed: bool)
      requires Valid()
      modifies this
      ensures Valid()
      ensures !isManualClose
      ensures ws == (if failed then old(ws) else Some(url))
      ensures listeners == old(listeners) && reconnectTimeout == old(reconnectTimeout) && scheduled == old(scheduled)
    {
      isManualClose := false;
      if !failed {
        ws := Some(url);
      }
    }

    /** The socket's `onopen`: the back-off starts again. */
    method OnOpen()
      requires Valid()
      modifies this
      ensures Valid() && reconnectTimeout == InitialTimeout && closesSinceOpen == 0
      ensures ws == old(ws) && listeners == old(listeners) && isManualClose == old(isManualClose) && scheduled == old(scheduled)
    {
      reconnectTimeout := InitialTimeout;
      closesSinceOpen := 0;
    }

    /** The `onclose` of a socket opened with `url`: unless the close was
        asked for, arm a reconnect after the current timeout and double the
        timeout, up to the cap. */
    method OnClose(url: string)
      requires Valid()
      modifies this
      ensures Valid()
      ensures old(isManualClose) ==> scheduled == old(scheduled) && reconnectTimeout == old(reconnectTimeout)
      ensures !old(isManualClose) ==> scheduled == old(scheduled) + [Reconnect(old(reconnectTimeout), url)]
      ensures !old(isManualClose) ==> reconnectTimeout == NextTimeout(old(reconnectTimeout))
      ensures !old(isManualClose) ==> closesSinceOpen == old(closesSinceOpen) + 1
      ensures ws == old(ws) && listeners == old(listeners) && isManualClose == old(isManualClose)
    {
      if !isManualClose {
        scheduled := scheduled + [Reconnect(reconnectTimeout, url)];
        reconnectTimeout := NextTimeout(reconnectTimeout);
        closesSinceOpen := closesSinceOpen + 1;
      }
    }

    /** The socket's `onmessage`: a message that parses goes to every
        listener, in list order; one that does not goes to none. */
    method OnMessage(data: string, parse: string -> Option<WSMessage>) returns (delivered: seq<Delivery>)
      ensures parse(data).None? ==> delivered == []
      ensures parse(data).Some? ==> |delivered| == |listeners|
      ensures parse(data).Some? ==> forall i :: 0 <= i < |delivered| ==>
        delivered[i] == Delivery(listeners[i], parse(data).value)
    {
      delivered := [];
      var parsed := parse(data);
      if parsed.None? {
        return;
      }
      for i := 0 to |listeners|
        invariant |delivered| == i
        invariant forall j :: 0 <= j < i ==> delivered[j] == Delivery(listeners[j], parsed.value)
      {
        delivered := delivered + [Delivery(listeners[i], parsed.value)];
      }
    }

    /** `disconnect()`: later closes arm no reconnect. */
    method Disconnect()
      requires Valid()
      modifies this
      ensures Valid() && isManualClose && ws == None
      ensures listeners == old(listeners) && reconnectTimeout == old(reconnectTimeout) && scheduled == old(scheduled)
    {
      isManualClose := true;
      ws := None;
    }

    /** `addListener`: appends; the unsubscribe it returns is
        `Unsubscribe(listener)`. */
    method AddListener(listener: Listener)
      requires Valid()
      modifies this
      ensures Valid() && listeners == old(listeners) + [listener]
      ensures ws == old(ws) && reconnectTimeout == old(reconnectTimeout) && isManualClose == old(isManualClose) && scheduled == old(scheduled)
    {
      listeners := listeners + [listener];
    }

    /** The function `addListener` returns. */
    method Unsubscribe(listener: Listener)
      requires Valid()
      modifies this
      ensures Valid() && listeners == Filter(old(listeners), NotListener(listener))
      ensures listener !in listeners
      ensures forall l :: l != listener ==> multiset(listeners)[l] == multiset(old(listeners))[l]
      ensures ws == old(ws) && reconnectTimeout == old(reconnectTimeout) && isManualClose == old(isManualClose) && scheduled == old(scheduled)
    {
      UnsubscribeRemovesAll(listeners, listener);
      listeners := Filter(listeners, NotListener(listener));
    }
  }
}
