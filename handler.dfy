/**
 * How the WebSocket endpoint uses the manager over one client's session:
 * it connects the client, broadcasts every text the client sends under the
 * client's id, and disconnects the client once the transport reports that
 * it is gone. Each step is taken as atomic, and the session is taken alone
 * (no other client connects or disconnects in between).
 */
module Handler {
  import opened PyList
  import opened Websocket

  /** The sends of one broadcast per received text, in the order received. */
  function SessionDeliveries<W>(connections: seq<(W, int)>, sender: int, received: seq<string>): seq<(W, string)> {
    if received == [] then []
    else
      SessionDeliveries(connections, sender, received[..|received| - 1])
        + Deliveries(connections, sender, received[|received| - 1])
  }

  lemma SessionDeliveriesStep<W>(connections: seq<(W, int)>, sender: int, received: seq<string>, i: nat)
    requires i < |received|
    ensures SessionDeliveries(connections, sender, received[..i + 1])
      == SessionDeliveries(connections, sender, received[..i]) + Deliveries(connections, sender, received[i])
  {
    assert received[..i + 1][..i] == received[..i];
  }

  /**
   * One session: the client's own entry is present during every broadcast,
   * so each of its texts reaches every entry including its own. The final
   * disconnect finds the pair and never raises; the registry is left
   * exactly as before when the pair was new, and with the same entries in
   * any case: when the pair was already there, its earlier copy is the one
   * removed and the session's copy stays, last.
   */
  method HandleSession<W(==)>(manager: WebsocketConnectionManager<W>, websocket: W, clientId: int, received: seq<string>)
    returns (status: Status)
    modifies manager
    ensures status == Done
    ensures multiset(manager.connections) == multiset(old(manager.connections))
    ensures (websocket, clientId) !in old(manager.connections) ==> manager.connections == old(manager.connections)
    ensures (websocket, clientId) in old(manager.connections) ==>
      manager.connections == RemoveFirst(old(manager.connections), (websocket, clientId)) + [(websocket, clientId)]
    ensures manager.outbox == old(manager.outbox)
      + SessionDeliveries(old(manager.connections) + [(websocket, clientId)], clientId, received)
  {
    manager.Connect(websocket, clientId);
    var i := 0;
    while i < |received|
      invariant 0 <= i <= |received|
      invariant manager.connections == old(manager.connections) + [(websocket, clientId)]
      invariant manager.outbox == old(manager.outbox) + SessionDeliveries(manager.connections, clientId, received[..i])
    {
      ghost var sent := SessionDeliveries(manager.connections, clientId, received[..i]);
      ghost var next := Deliveries(manager.connections, clientId, received[i]);
      manager.Broadcast(clientId, received[i]);
      AppendAssociative(old(manager.outbox), sent, next);
      assert sent + next == SessionDeliveries(manager.connections, clientId, received[..i + 1]) by {
        SessionDeliveriesStep(manager.connections, clientId, received, i);
      }
      i := i + 1;
    }
    assert received[..i] == received;
    ghost var before := old(manager.connections);
    ghost var pair := (websocket, clientId);
    assert pair !in before ==> RemoveFirst(manager.connections, pair) == before by {
      RemoveAfterAppend(before, pair);
    }
    assert pair in before ==> RemoveFirst(manager.connections, pair) == RemoveFirst(before, pair) + [pair] by {
      RemoveAfterAppend(before, pair);
    }
    assert multiset(RemoveFirst(manager.connections, pair)) == multiset(before) by {
      RemoveAfterAppendMultiset(before, pair);
    }
    status := manager.Disconnect(websocket, clientId);
  }
}
