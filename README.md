# WebSocket connection manager of fastapi-async, in Dafny

This project models `WebsocketConnectionManager` in `src/shared/websocket.py`. It is the
in-process registry behind the `/ws/{client_id}` chat endpoint. The registry is an
ordered list of `(websocket, client_id)` pairs:

- `connect` appends a pair.
- `disconnect` removes the first equal pair with Python's `list.remove`.
- `broadcast` walks the list in order and calls `send_text` on each entry. An entry
  whose client id is the sender's gets `"<Me>" + message`. Every other entry gets
  `"<Them>#" + str(sender)[-4:] + ": " + message`.

The project has five modules:

- `PyStr` (`py_str.dfy`) models the Python string behaviour the wire format depends on.
  `IntToDecimal` is `str(int)`, `SliceFrom` is `s[start:]`, and `Last4` is `s[-4:]`. It
  proves that `int(str(n)) == n` and describes exactly what `str(n)[-4:]` is for every int.
- `PyList` (`py_list.dfy`) models `list.index` and `list.remove`. It proves what `remove`
  keeps and how it interacts with a preceding `append`.
- `Tagging` (`tagging.dfy`) turns the two f-strings into a structured tag, `Mine(body)` or
  `Theirs(suffix, body)`, with a renderer and a parser that undo each other. The parser
  (`Parse`, with `FindChar` and `Unambiguous`) has no counterpart in the code: it is a
  reference inverse that shows the wire format loses nothing. It also models
  the chat page's reading of a received text (`src/shared/chat.py`). The page tests
  `startsWith("<Me>")`, and JavaScript `replace` deletes the first occurrence of the tag.
- `Websocket` (`websocket.dfy`) has the class `WebsocketConnectionManager<W>`. Its field
  `connections` is the registry. Its field `outbox` records every `send_text` in order, as
  the websocket and the text.
  - `Broadcast` is the source's loop, proved against a specification function,
    `Deliveries`. Each lemma about `Deliveries` states one property of a broadcast.
- `Handler` (`handler.dfy`) models how the endpoint in `src/main.py` uses the manager over
  one client session: connect, one broadcast per received text, then disconnect.

The websocket is the type parameter `W`. Websockets are compared by equality, as
`list.remove` compares the tuples.

## Model

| member | source | states |
|---|---|---|
| Websocket.WebsocketConnectionManager.constructor | src/shared/websocket.py:6-8 | a new manager has an empty registry and has sent nothing |
| Websocket.WebsocketConnectionManager.Connect | src/shared/websocket.py:11-13 | the pair is appended as the last entry; everything before it is unchanged and nothing is sent |
| Websocket.WebsocketConnectionManager.Disconnect | src/shared/websocket.py:16-17 | succeeds exactly when the pair is registered, and then the registry is `list.remove` of it; otherwise the status is `ValueError` and nothing changes; nothing is sent |
| Websocket.WebsocketConnectionManager.Broadcast | src/shared/websocket.py:19-24 | the registry is unchanged, and the sends made are exactly `Deliveries` of the registry, appended in order to those made before |
| Websocket.Fanout | src/shared/websocket.py:20-24 | a broadcast makes exactly one send per registry entry |
| Websocket.FanoutAt | src/shared/websocket.py:20-24 | send i goes to the websocket of entry i, with the sender's text when entry i holds the sender's id and the other text otherwise |
| Websocket.DeliveriesAt | src/shared/websocket.py:20-24 | send i of a broadcast goes to the websocket of entry i and carries the tag that entry's client id calls for |
| Websocket.FanoutAppend | src/shared/websocket.py:20 | broadcasting over two lists one after the other gives the sends of the first list followed by those of the second |
| Websocket.FanoutStep | src/shared/websocket.py:20-24 | each loop iteration adds exactly the send for the next entry |
| Websocket.DeliveriesText | src/shared/websocket.py:22-24 | the two texts a broadcast uses are the two f-strings, `"<Me>" + message` and `"<Them>#" + str(sender)[-4:] + ": " + message` |
| Websocket.BroadcastTextAt | src/shared/websocket.py:21-24 | the exact text of send i for a self entry and for another entry; every other entry gets the same text; the chat page's `"<Me>"` test is true of send i exactly when entry i holds the sender's id; `"<Them>"` starts send i exactly when it does not |
| Websocket.CountClient | src/shared/websocket.py:8 | the number of entries holding a client id is at most the registry's length |
| Tagging.RenderTags | src/shared/websocket.py:22-24 | the echo text starts with `"<Me>"` and not `"<Them>"`, and the other text the other way round |
| Websocket.FanoutCount | src/shared/websocket.py:21-22 | the sends carrying the sender's tag are as many as the entries holding the sender's id |
| Websocket.FanoutCountOthers | src/shared/websocket.py:23-24 | the sends carrying the other tag are as many as the entries not holding the sender's id |
| Websocket.BroadcastTagCounts | src/shared/websocket.py:20-24 | a broadcast sends exactly as many `"<Me>"` texts as there are entries with the sender's id, and `"<Them>"` texts to all the rest |
| Tagging.SelfTagIsNotOtherTag | src/shared/websocket.py:22-24 | a text starting with `"<Me>"` does not start with `"<Them>"` |
| Websocket.Deliveries | src/shared/websocket.py:19-24 | definition, no contract: the sends of one broadcast, one per entry in registry order, each with `Wire` of that entry's id |
| Websocket.FanoutExtend | src/shared/websocket.py:20-24 | the sends made so far followed by the send for entry i are the sends for the first i + 1 entries |
| Websocket.DeliveriesExtend | src/shared/websocket.py:20-24 | one more loop iteration of `broadcast` extends the sends so far by exactly the wire text for entry i |
| Websocket.FormatText | src/shared/websocket.py:21-24 | the text the loop body formats for one entry is exactly `Wire` of that entry's id |
| Websocket.FanoutPair | src/shared/websocket.py:20-24 | over a two-entry registry the sends are the first entry's and then the second's |
| Websocket.TwoEntryDeliveries | src/shared/websocket.py:19-24 | with the sender first and another client second, the sender gets `<Me>` + message and the other `<Them>#` + suffix + `: ` + message |
| Websocket.OtherTextFrom1001 | src/shared/websocket.py:24 | client 1001 appears to other clients as `<Them>#1001: ` before the message |
| Websocket.TwoClientBroadcast | src/shared/websocket.py:19-24 | with clients 1001 and 2002 registered, whatever 1001 says reaches itself as `<Me>` + message and 2002 as `<Them>#1001: ` + message, in registry order |
| PyList.IndexOf | src/shared/websocket.py:17 | the position `list.remove` deletes holds the element, and no earlier position does |
| PyList.RemoveFirst | src/shared/websocket.py:17 | `list.remove` shortens the list by exactly one |
| PyList.RemoveFirstSplit | src/shared/websocket.py:17 | `list.remove(x)` leaves the elements before the first x and those after it, in their original order |
| PyList.RemoveFirstMultiset | src/shared/websocket.py:17 | `list.remove(x)` takes exactly one copy of x out of the multiset of entries |
| PyList.RemoveAfterAppend | src/shared/websocket.py:13-17 | appending a pair and then removing it restores the list when the pair was new; when it was already there, the earlier copy goes and the new copy ends up last |
| PyList.RemoveAfterAppendMultiset | src/shared/websocket.py:13-17 | appending a pair and then removing it always restores the multiset of entries |
| PyStr.NatToDecimal | src/shared/websocket.py:24 | `str(n)` of a natural is a non-empty string of digits with no leading zero, ending in the digit of n mod 10 |
| PyStr.IntToDecimal | src/shared/websocket.py:24 | `str(n)` starts with `-` exactly when n is negative, and every other character is a digit |
| PyStr.NatToDecimalRoundTrip | src/shared/websocket.py:24 | the digits of `str(n)` read back give n |
| PyStr.IntToDecimalRoundTrip | src/shared/websocket.py:24 | `int(str(n)) == n` for every int |
| PyStr.DecimalValue | src/shared/websocket.py:24 | definition, no contract: Python `int(s)` of a decimal text, the inverse `IntToDecimalRoundTrip` is stated against |
| PyStr.IntToDecimalInjective | src/shared/websocket.py:24 | distinct client ids have distinct decimal texts |
| PyStr.NatToDecimalLength | src/shared/websocket.py:24 | `str(n)` has more than k > 0 digits exactly when n >= 10^k |
| PyStr.SliceFrom | src/shared/websocket.py:24 | Python `s[start:]` is a suffix of s, and its length follows the clamping of negative and out-of-range starts |
| PyStr.Last4 | src/shared/websocket.py:24 | `s[-4:]` is the suffix of s of length min(4, len(s)) |
| PyStr.NatToDecimalSplit | src/shared/websocket.py:24 | `str(m)` for m >= 10 is `str(m // 10)` followed by the last digit |
| PyStr.LastFourDigits | src/shared/websocket.py:24 | four characters, all digits |
| PyStr.NatToDecimalLastThree | src/shared/websocket.py:24 | the last three characters of `str(n)` for n >= 1000 are its last three digits |
| PyStr.Last4OfThreeMore | src/shared/websocket.py:24 | the last four characters of a string extended by three |
| PyStr.Last4OfLargeNat | src/shared/websocket.py:24 | for n >= 1000, `str(n)[-4:]` is n mod 10000 written with four digits, leading zeros kept |
| PyStr.Last4OfIntToDecimal | src/shared/websocket.py:24 | `str(n)[-4:]` is the whole of `str(n)` for -1000 < n < 1000; otherwise it is the last four digits of abs(n), with the sign cut off |
| PyStr.Last4IgnoresSign | src/shared/websocket.py:24 | a leading `-` does not reach the last four characters of a string of four or more digits |
| PyStr.ShortDecimal | src/shared/websocket.py:24 | `str(n)` has at most four characters for -1000 < n < 1000 |
| PyStr.Last4OfDecimalLength | src/shared/websocket.py:24 | the suffix has all four characters exactly when n >= 1000 or n <= -100, and is the whole of `str(n)` otherwise |
| Tagging.SenderSuffix | src/shared/websocket.py:24 | the sender suffix is the last min(4, len) characters of `str(sender)`, each a digit or `-` |
| Tagging.ShortSenderSuffix | src/shared/websocket.py:24 | client id -12 is shown whole as `-12` |
| Tagging.FourDigitSenderSuffix | src/shared/websocket.py:24 | client id 1001 is shown as `1001` |
| Tagging.NegativeSenderSuffix | src/shared/websocket.py:24 | client id -1234 is shown as `1234`, without its sign |
| Tagging.TimestampSenderSuffix | src/shared/chat.py:57 | a millisecond-timestamp client id such as 1697000000123 is shown as `0123`, leading zero kept |
| Tagging.Classify | src/shared/websocket.py:21-24 | the tag chosen for an entry renders to exactly the f-string the code sends it: `"<Me>" + message` when the entry's id is the sender's, `"<Them>#" + str(sender)[-4:] + ": " + message` otherwise |
| Tagging.Render | src/shared/websocket.py:22-24 | definition, no contract: the echo tag renders as `<Me>` + body, the other tag as `<Them>#` + suffix + `: ` + body |
| Tagging.RenderOtherText | src/shared/websocket.py:24 | the other tag renders as the literal `<Them>#` + suffix + `: ` + body |
| Tagging.Wire | src/shared/websocket.py:21-24 | definition, no contract: the text one entry is sent is the rendering of its tag |
| Tagging.WireText | src/shared/websocket.py:22-24 | the rendered tag is exactly the f-string `f"<Me>{message}"` or `f"<Them>#{str(sender)[-4:]}: {message}"` |
| Tagging.FindChar | src/shared/websocket.py:22-24 | reference parser only, no counterpart in the code: the search for the colon that ends the suffix of the rendered format; the position found holds the character and no earlier one does |
| Tagging.OtherTagIsNotSelfTag | src/shared/websocket.py:22-24 | a text starting with `"<Them>"` does not start with `"<Me>"` |
| Tagging.ParseRender | src/shared/websocket.py:22-24 | (reference inverse) parsing a rendered tag gives back the same tag, suffix and body, when the suffix holds no colon |
| Tagging.SenderSuffixHasNoColon | src/shared/websocket.py:24 | the sender suffix never contains `:` |
| Tagging.ParseWire | src/shared/websocket.py:21-24 | (reference inverse) every text a broadcast sends parses back to the tag it was built from, with the message intact whatever characters it holds |
| Tagging.IndexOfFrom | src/shared/chat.py:70-73 | JavaScript `indexOf(pattern, from)`: the result is the first position at or after `from` where the pattern occurs, and -1 exactly when it occurs at no such position |
| Tagging.ChatIsMine | src/shared/chat.py:69 | definition, no contract: the page's `startsWith("<Me>")` test |
| Tagging.DeleteFirst | src/shared/chat.py:70-73 | definition, no contract: JavaScript `replace` with a string pattern deletes its first occurrence, and leaves the text alone when it does not occur |
| Tagging.ChatDisplay | src/shared/chat.py:69-75 | definition, no contract: the page shows the text with `<Me>` deleted when it starts with `<Me>`, and with `<Them>` deleted otherwise |
| Tagging.ChatClassifiesWire | src/shared/chat.py:69 | the page takes a broadcast text for the reader's own message exactly when the recipient is the sender |
| Tagging.ChatDisplaysRender | src/shared/chat.py:69-74 | after the page strips the tag, an echo shows its body, and another client's message shows `#` + suffix + `: ` + body |
| Tagging.ChatDisplaysWire | src/shared/chat.py:69-74 | the page shows the sender's own message unchanged, and another client's as `#` + the sender suffix + `: ` + message |
| Handler.SessionDeliveries | src/main.py:49-53 | definition, no contract: the sends of one session, one broadcast per received text, in the order received |
| Handler.SessionDeliveriesStep | src/main.py:49-53 | one more received text adds exactly one broadcast's sends |
| Handler.HandleSession | src/main.py:43-56 | over one session the final disconnect never raises; every received text reaches every entry, the client's own included, in order; the registry keeps its multiset of entries, is exactly restored when the pair was new, and when the pair was already registered its earlier copy is the one removed and the session's copy ends up last |

## Left out

- Asynchrony: `connect` and `broadcast` are coroutines, and other sessions can run at
  every `await`. Each call is modelled as one atomic step. Concurrent mutation of the
  registry during a broadcast is not modelled.
- Transport failures: `websocket.accept()` and `send_text` are taken to succeed. In the
  code, an exception from `send_text` propagates out of `broadcast`, and the remaining
  entries are not sent to. The model does not capture this.
- Idempotent disconnect and failure-isolated sends: the code provides neither, and the
  model follows the code:
  - `list.remove` raises `ValueError` on an absent pair. This is `Status.ValueError`,
    with the registry unchanged.
  - A second disconnect of the same pair raises.
- Handler.HandleSession: takes the session alone, with no other client connecting,
  disconnecting or broadcasting in between. It takes `receive_text` as the given sequence
  of texts, and `WebSocketDisconnect` as the end of that sequence.
- `src/shared/message_broker.py`, the cross-node publish and its origin filtering: not
  called by the code (the call in `src/main.py` is commented out), so it is not part of
  this model.
- The JWT and database code, the user routers and the HTML page beyond its message
  handler are not part of this model. They do not touch the registry.
- WebSocket identity: a websocket is a value of the type parameter `W`, compared with
  `==`. This matches tuple equality in `list.remove` as long as `WebSocket` uses the
  default identity-based equality.
