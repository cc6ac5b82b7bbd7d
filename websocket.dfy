/**
 * The in-process registry of WebSocket connections and its broadcaster
 * (`WebsocketConnectionManager`). The registry is an ordered list of
 * (websocket, client id) pairs; a broadcast walks it in order and sends each
 * entry one tagged text. The transport is left abstract: a websocket is a
 * value of the type parameter W, compared by equality as Python compares
 * the tuples in `list.remove`, and each `send_text` is recorded in `outbox`.
 */
module Websocket {
  import opened PyStr
  import opened PyList
  import opened Tagging

  /** What `disconnect` ends in: the pair was removed, or `list.remove` raised `ValueError`. */
  datatype Status = Done | ValueError

  /**
   * One send per registry entry, in registry order, to that entry's
   * websocket: `own` to entries whose client id is `sender`, `other` to
   * the rest.
   */
  function Fanout<W>(connections: seq<(W, int)>, sender: int, own: string, other: string): (r: seq<(W, string)>)
    ensures |r| == |connections|
  {
    if connections == [] then []
    else
      [(connections[0].0, if connections[0].1 == sender then own else other)]
        + Fanout(connections[1..], sender, own, other)
  }

  /** The sends one broadcast of `message` from `sender` makes. */
  function Deliveries<W>(connections: seq<(W, int)>, sender: int, message: string): seq<(W, string)> {
    Fanout(connections, sender, Render(Mine(message)), Render(Theirs(SenderSuffix(sender), message)))
  }

  lemma {:induction false} FanoutAt<W>(connections: seq<(W, int)>, sender: int, own: string, other: string, i: nat)
    requires i < |connections|
    ensures Fanout(connections, sender, own, other)[i]
      == (connections[i].0, if connections[i].1 == sender then own else other)
  {
    if i > 0 {
      FanoutAt(connections[1..], sender, own, other, i - 1);
    }
  }

  /**
   * Send number i goes to the websocket of entry i and carries the text
   * that entry's client id calls for.
   */
  lemma DeliveriesAt<W>(connections: seq<(W, int)>, sender: int, message: string, i: nat)
    requires i < |connections|
    ensures |Deliveries(connections, sender, message)| == |connections|
    ensures Deliveries(connections, sender, message)[i]
      == (connections[i].0, Wire(connections[i].1, sender, message))
  {
    FanoutAt(connections, sender, Render(Mine(message)), Render(Theirs(SenderSuffix(sender), message)), i);
  }

  /** The number of registry entries whose client id is `id`. */
  function CountClient<W>(connections: seq<(W, int)>, id: int): (n: nat)
    ensures n <= |connections|
  {
    if connections == [] then 0
    else (if connections[0].1 == id then 1 else 0) + CountClient(connections[1..], id)
  }

  /** The number of sends whose text starts with `tag`. */
  function CountTagged<W>(sends: seq<(W, string)>, tag: string): nat {
    if sends == [] then 0
    else (if StartsWith(sends[0].1, tag) then 1 else 0) + CountTagged(sends[1..], tag)
  }

  /**
   * The sends over two lists one after the other are those over each list,
   * in that order.
   */
  lemma {:induction false} FanoutAppend<W>(a: seq<(W, int)>, b: seq<(W, int)>, sender: int, own: string, other: string)
    ensures Fanout(a + b, sender, own, other) == Fanout(a, sender, own, other) + Fanout(b, sender, own, other)
  {
    if a != [] {
      assert (a + b)[1..] == a[1..] + b;
      FanoutAppend(a[1..], b, sender, own, other);
    } else {
      assert a + b == b;
    }
  }

  /** The sends over the first i + 1 entries extend those over the first i by one. */
  lemma FanoutStep<W>(connections: seq<(W, int)>, i: nat, sender: int, own: string, other: string)
    requires i < |connections|
    ensures Fanout(connections[..i + 1], sender, own, other)
      == Fanout(connections[..i], sender, own, other) + [(connections[i].0, if connections[i].1 == sender then own else other)]
  {
    assert connections[..i + 1] == connections[..i] + [connections[i]];
    FanoutAppend(connections[..i], [connections[i]], sender, own, other);
  }

  /** Making the send for entry i after those for the entries before it. */
  lemma FanoutExtend<W>(before: seq<(W, string)>, connections: seq<(W, int)>, i: nat, sender: int, own: string, other: string)
    requires i < |connections|
    ensures before + Fanout(connections[..i], sender, own, other)
        + [(connections[i].0, if connections[i].1 == sender then own else other)]
      == before + Fanout(connections[..i + 1], sender, own, other)
  {
    FanoutStep(connections, i, sender, own, other);
    AppendAssociative(before, Fanout(connections[..i], sender, own, other),
      [(connections[i].0, if connections[i].1 == sender then own else other)]);
  }

  /** Making the send for entry i after those for the entries before it. */
  lemma DeliveriesExtend<W>(before: seq<(W, string)>, connections: seq<(W, int)>, i: nat, sender: int, message: string)
    requires i < |connections|
    ensures before + Deliveries(connections[..i], sender, message)
        + [(connections[i].0, Wire(connections[i].1, sender, message))]
      == before + Deliveries(connections[..i + 1], sender, message)
  {
    FanoutExtend(before, connections, i, sender, Render(Mine(message)), Render(Theirs(SenderSuffix(sender), message)));
  }

  /** The two texts of a broadcast, spelled out as the broadcaster's f-strings. */
  lemma DeliveriesText<W>(connections: seq<(W, int)>, sender: int, message: string)
    ensures Deliveries(connections, sender, message)
      == Fanout(connections, sender, "<Me>" + message, "<Them>#" + Last4(IntToDecimal(sender)) + ": " + message)
  {
    assert Render(Theirs(SenderSuffix(sender), message)) == "<Them>#" + Last4(IntToDecimal(sender)) + ": " + message by {
      assert OtherTag + "#" == "<Them>#";
    }
  }

  /**
   * The exact text of one send: `"<Me>" + message` for an entry of the
   * sender's own, `"<Them>#" + str(sender)[-4:] + ": " + message` for any
   * other, so every other entry receives one and the same text; the chat
   * page's `"<Me>"` test tells the two apart without error.
   */
  lemma BroadcastTextAt<W>(connections: seq<(W, int)>, sender: int, message: string, i: nat)
    requires i < |connections|
    ensures connections[i].1 == sender ==>
      Deliveries(connections, sender, message)[i].1 == "<Me>" + message
    ensures connections[i].1 != sender ==>
      Deliveries(connections, sender, message)[i].1
        == "<Them>#" + SliceFrom(IntToDecimal(sender), -4) + ": " + message
    ensures ChatIsMine(Deliveries(connections, sender, message)[i].1) <==> connections[i].1 == sender
    ensures StartsWith(Deliveries(connections, sender, message)[i].1, OtherTag) <==> connections[i].1 != sender
  {
    DeliveriesAt(connections, sender, message, i);
    WireText(connections[i].1, sender, message);
    RenderTags(Classify(connections[i].1, sender, message));
  }

  /** The sends carrying `tag` are exactly those to the sender's entries. */
  lemma {:induction false} FanoutCount<W>(connections: seq<(W, int)>, sender: int, own: string, other: string, tag: string)
    requires StartsWith(own, tag) && !StartsWith(other, tag)
    ensures CountTagged(Fanout(connections, sender, own, other), tag) == CountClient(connections, sender)
  {
    if connections != [] {
      var r := Fanout(connections, sender, own, other);
      assert r[1..] == Fanout(connections[1..], sender, own, other);
      FanoutCount(connections[1..], sender, own, other, tag);
    }
  }

  /** The sends carrying `tag` are exactly those to the entries that are not the sender's. */
  lemma {:induction false} FanoutCountOthers<W>(connections: seq<(W, int)>, sender: int, own: string, other: string, tag: string)
    requires !StartsWith(own, tag) && StartsWith(other, tag)
    ensures CountTagged(Fanout(connections, sender, own, other), tag) == |connections| - CountClient(connections, sender)
  {
    if connections != [] {
      var r := Fanout(connections, sender, own, other);
      assert r[1..] == Fanout(connections[1..], sender, own, other);
      FanoutCountOthers(connections[1..], sender, own, other, tag);
    }
  }

  /**
   * A broadcast sends `"<Me>"` texts to exactly as many entries as hold the
   * sender's client id, and `"<Them>"` texts to all the rest.
   */
  lemma BroadcastTagCounts<W>(connections: seq<(W, int)>, sender: int, message: string)
    ensures CountTagged(Deliveries(connections, sender, message), SelfTag) == CountClient(connections, sender)
    ensures CountTagged(Deliveries(connections, sender, message), OtherTag)
      == |connections| - CountClient(connections, sender)
  {
    var own := Render(Mine(message));
    var other := Render(Theirs(SenderSuffix(sender), message));
    RenderTags(Mine(message));
    RenderTags(Theirs(SenderSuffix(sender), message));
    FanoutCount(connections, sender, own, other, SelfTag);
    FanoutCountOthers(connections, sender, own, other, OtherTag);
  }

  /** A broadcast over two entries, for any two texts. */
  lemma FanoutPair<W>(a: W, idA: int, b: W, idB: int, sender: int, own: string, other: string)
    ensures Fanout([(a, idA), (b, idB)], sender, own, other)
      == [(a, if idA == sender then own else other), (b, if idB == sender then own else other)]
  {
    var r := Fanout([(a, idA), (b, idB)], sender, own, other);
    FanoutAt([(a, idA), (b, idB)], sender, own, other, 0);
    FanoutAt([(a, idA), (b, idB)], sender, own, other, 1);
  }

  /**
   * A broadcast with two entries, the sender's and one other: the sender
   * gets its echo and the other entry the sender's suffix and the message.
   */
  lemma TwoEntryDeliveries<W>(a: W, b: W, sender: int, other: int, message: string)
    requires other != sender
    ensures Deliveries([(a, sender), (b, other)], sender, message)
      == [(a, "<Me>" + message), (b, "<Them>#" + SenderSuffix(sender) + ": " + message)]
  {
    RenderOtherText(SenderSuffix(sender), message);
    FanoutPair(a, sender, b, other, sender, Render(Mine(message)), Render(Theirs(SenderSuffix(sender), message)));
  }

  /** Client 1001 appears to others as #1001, whatever it says. */
  lemma OtherTextFrom1001(message: string)
    ensures "<Them>#" + SenderSuffix(1001) + ": " + message == "<Them>#1001: " + message
  {
    FourDigitSenderSuffix();
    OtherTextOf1001Suffix(SenderSuffix(1001), message);
  }

  /** The other-client prefix around the suffix "1001" is the literal prefix "<Them>#1001: ". */
  lemma OtherTextOf1001Suffix(suffix: string, message: string)
    requires suffix == "1001"
    ensures "<Them>#" + suffix + ": " + message == "<Them>#1001: " + message
  {
    assert "<Them>#" + suffix + ": " == "<Them>#1001: ";
  }

  /**
   * The two-client case: with clients 1001 and 2002 attached, whatever 1001
   * says comes back to it as its echo, and 2002 sees the sender as #1001.
   */
  lemma TwoClientBroadcast<W>(a: W, b: W, message: string)
    ensures Deliveries([(a, 1001), (b, 2002)], 1001, message)
      == [(a, "<Me>" + message), (b, "<Them>#1001: " + message)]
  {
    TwoEntryDeliveries(a, b, 1001, 2002, message);
    OtherTextFrom1001(message);
  }

  /**
   * The text one entry is sent: the echo f-string for an entry of the
   * sender's own, the other-client f-string for any other.
   */
  method FormatText(clientId: int, senderClientId: int, message: string) returns (text: string)
    ensures text == Wire(clientId, senderClientId, message)
  {
    if clientId == senderClientId {
      text := "<Me>" + message;
    } else {
      text := "<Them>#" + Last4(IntToDecimal(senderClientId)) + ": " + message;
    }
  }

  class WebsocketConnectionManager<W(==)> {
    /** The registered (websocket, client id) pairs, in registration order. */
    var connections: seq<(W, int)>
    /** Every `send_text` made so far, in order: the websocket and the text. */
    var outbox: seq<(W, string)>

    constructor ()
      ensures connections == [] && outbox == []
    {
      connections := [];
      outbox := [];
    }

    /** Registers the pair after the (infallible) handshake: it goes last. */
    method Connect(websocket: W, clientId: int)
      modifies this
      ensures connections == old(connections) + [(websocket, clientId)]
      ensures outbox == old(outbox)
    {
      connections := connections + [(websocket, clientId)];
    }

    /**
     * Unregisters the first entry equal to the pair; when there is none,
     * `list.remove` raises `ValueError` and nothing changes.
     */
    method Disconnect(websocket: W, clientId: int) returns (status: Status)
      modifies this
      ensures status == Done <==> (websocket, clientId) in old(connections)
      ensures status == Done ==> connections == RemoveFirst(old(connections), (websocket, clientId))
      ensures status == ValueError ==> connections == old(connections)
      ensures outbox == old(outbox)
    {
      if (websocket, clientId) in connections {
        connections := RemoveFirst(connections, (websocket, clientId));
        status := Done;
      } else {
        status := ValueError;
      }
    }

    /**
     * Sends each registered entry, in order, the echo tag when its client
     * id is the sender's and the other-client tag otherwise.
     */
    method Broadcast(senderClientId: int, message: string)
      modifies this
      ensures connections == old(connections)
      ensures outbox == old(outbox) + Deliveries(connections, senderClientId, message)
    {
      var entries := connections;
      var i := 0;
      while i < |entries|
        invariant 0 <= i <= |entries|
        invariant connections == entries == old(connections)
        invariant outbox == old(outbox) + Deliveries(entries[..i], senderClientId, message)
      {
        var (websocket, clientId) := entries[i];
        var text := FormatText(clientId, senderClientId, message);
        DeliveriesExtend(old(outbox), entries, i, senderClientId, message);
        outbox := outbox + [(websocket, text)];
        i := i + 1;
      }
      assert entries[..i] == entries;
    }
  }
}
