/**
 * The text each recipient of a broadcast is sent, as a structured tag and as
 * the string written on the wire: `"<Me>" + message` for an entry whose
 * client id is the sender's, `"<Them>#" + str(sender)[-4:] + ": " + message`
 * for every other entry. The chat page tells the two apart by the `"<Me>"`
 * prefix and strips the first tag it finds before showing the text.
 */
module Tagging {
  import opened PyStr

  datatype Option<T> = None | Some(value: T)

  /** A tagged outbound message: the sender's own echo, or another client's message. */
  datatype Tagged = Mine(body: string) | Theirs(suffix: string, body: string)

  const SelfTag: string := "<Me>"
  const OtherTag: string := "<Them>"

  predicate StartsWith(s: string, prefix: string) {
    |prefix| <= |s| && s[..|prefix|] == prefix
  }

  /** The abbreviated sender shown to other clients: `str(sender)[-4:]`. */
  function SenderSuffix(sender: int): (r: string)
    ensures |r| == if |IntToDecimal(sender)| < 4 then |IntToDecimal(sender)| else 4
    ensures r == IntToDecimal(sender)[|IntToDecimal(sender)| - |r|..]
    ensures forall i :: 0 <= i < |r| ==> r[i] == '-' || IsDigit(r[i])
  {
    var s := IntToDecimal(sender);
    var r := Last4(s);
    assert forall i :: 0 <= i < |r| ==> r[i] == s[|s| - |r| + i];
    r
  }

  /** An id between -1000 and 1000 is shown whole, sign included. */
  lemma ShortSenderSuffix()
    ensures SenderSuffix(-12) == "-12"
  {
    Last4OfIntToDecimal(-12);
    NatToDecimalSplit(12);
    assert NatToDecimal(12) == "12";
  }

  /** A four-digit id is shown whole. */
  lemma FourDigitSenderSuffix()
    ensures SenderSuffix(1001) == "1001"
  {
    assert NatToDecimal(10) == "10" by {
      assert NatToDecimal(10) == NatToDecimal(1) + [DigitChar(0)];
    }
    assert NatToDecimal(100) == "100" by {
      assert NatToDecimal(100) == NatToDecimal(10) + [DigitChar(0)];
    }
    assert NatToDecimal(1001) == "1001" by {
      assert NatToDecimal(1001) == NatToDecimal(100) + [DigitChar(1)];
    }
    assert Last4("1001") == "1001";
  }

  /** A negative id of four digits or more loses its sign. */
  lemma NegativeSenderSuffix()
    ensures SenderSuffix(-1234) == "1234"
  {
    Last4OfIntToDecimal(-1234);
    assert LastFourDigits(1234) == "1234";
  }

  /**
   * The chat page's client ids are millisecond timestamps: other readers
   * see their last four digits, leading zeros kept.
   */
  lemma TimestampSenderSuffix()
    ensures SenderSuffix(1697000000123) == "0123"
  {
    Last4OfIntToDecimal(1697000000123);
    assert LastFourDigits(1697000000123) == "0123" by {
      assert 1697000000123 / 10 == 169700000012;
      assert 169700000012 / 10 == 16970000001;
      assert 16970000001 / 10 == 1697000000;
    }
  }

  /**
   * The tag an entry with client id `recipient` gets for a message from
   * `sender`; on the wire it is one of the broadcaster's two f-strings.
   */
  function Classify(recipient: int, sender: int, message: string): (t: Tagged)
    ensures Render(t) == if recipient == sender then "<Me>" + message
                         else "<Them>#" + Last4(IntToDecimal(sender)) + ": " + message
  {
    if recipient == sender then Mine(message) else Theirs(SenderSuffix(sender), message)
  }

  /** The wire form of a tag, as the f-strings of the broadcaster build it. */
  function Render(t: Tagged): string {
    match t
    case Mine(body) => SelfTag + body
    case Theirs(suffix, body) => OtherTag + "#" + suffix + ": " + body
  }

  /** The other-client form spelled out as one string. */
  lemma RenderOtherText(suffix: string, body: string)
    ensures Render(Theirs(suffix, body)) == "<Them>#" + suffix + ": " + body
  {
    assert OtherTag + "#" == "<Them>#";
  }

  /** The string `send_text` is given for one entry of the registry. */
  function Wire(recipient: int, sender: int, message: string): string {
    Render(Classify(recipient, sender, message))
  }

  /**
   * The wire string spelled out as the broadcaster's two f-strings:
   * `f"<Me>{message}"` and `f"<Them>#{str(sender)[-4:]}: {message}"`.
   */
  lemma WireText(recipient: int, sender: int, message: string)
    ensures recipient == sender ==> Wire(recipient, sender, message) == "<Me>" + message
    ensures recipient != sender ==>
      Wire(recipient, sender, message) == "<Them>#" + Last4(IntToDecimal(sender)) + ": " + message
  {
    if recipient != sender {
      assert OtherTag + "#" == "<Them>#";
    }
  }

  /** The first position of c in s, or |s| when c does not occur. */
  function FindChar(s: string, c: char): (j: nat)
    ensures j <= |s|
    ensures j < |s| ==> s[j] == c
    ensures c !in s[..j]
  {
    if s == [] then 0
    else if s[0] == c then 0
    else
      var k := FindChar(s[1..], c);
      assert s[..k + 1] == [s[0]] + s[1..][..k];
      1 + k
  }

  /** Reads a wire string back into its tag; None when it is neither form. */
  function Parse(s: string): Option<Tagged> {
    if StartsWith(s, SelfTag) then Some(Mine(s[|SelfTag|..]))
    else if StartsWith(s, OtherTag + "#") then
      var rest := s[|OtherTag| + 1..];
      var j := FindChar(rest, ':');
      if j + 1 < |rest| && rest[j + 1] == ' ' then Some(Theirs(rest[..j], rest[j + 2..]))
      else None
    else None
  }

  /** A tag the renderer can be inverted on: the suffix holds no colon. */
  predicate Unambiguous(t: Tagged) {
    t.Theirs? ==> ':' !in t.suffix
  }

  lemma SelfTagIsNotOtherTag(s: string)
    requires StartsWith(s, SelfTag)
    ensures !StartsWith(s, OtherTag)
  {
    assert s[1] == 'M';
    assert OtherTag[1] == 'T';
  }

  lemma OtherTagIsNotSelfTag(s: string)
    requires StartsWith(s, OtherTag)
    ensures !StartsWith(s, SelfTag)
  {
    assert s[1] == 'T';
    assert SelfTag[1] == 'M';
  }

  /** Rendering loses nothing: the tag, suffix and body are read back exactly. */
  lemma ParseRender(t: Tagged)
    requires Unambiguous(t)
    ensures Parse(Render(t)) == Some(t)
  {
    var s := Render(t);
    match t
    case Mine(body) =>
      assert s[..|SelfTag|] == SelfTag;
      assert s[|SelfTag|..] == body;
    case Theirs(suffix, body) =>
      assert s[..|OtherTag|] == OtherTag;
      OtherTagIsNotSelfTag(s);
      assert s[..|OtherTag| + 1] == OtherTag + "#";
      var rest := s[|OtherTag| + 1..];
      assert rest == suffix + ": " + body;
      assert rest[..|suffix|] == suffix;
      var j := FindChar(rest, ':');
      assert rest[|suffix|] == ':';
      assert j == |suffix|;
      assert rest[j + 2..] == body;
  }

  lemma SenderSuffixHasNoColon(sender: int)
    ensures ':' !in SenderSuffix(sender)
  {
    var r := SenderSuffix(sender);
    forall i | 0 <= i < |r| ensures r[i] != ':' {
      assert r[i] == '-' || IsDigit(r[i]);
    }
  }

  /**
   * Every string the broadcaster sends can be read back into the tag it was
   * built from; in particular the message comes back unchanged whatever
   * characters it holds.
   */
  lemma ParseWire(recipient: int, sender: int, message: string)
    ensures Parse(Wire(recipient, sender, message)) == Some(Classify(recipient, sender, message))
  {
    var t := Classify(recipient, sender, message);
    if t.Theirs? {
      SenderSuffixHasNoColon(sender);
    }
    ParseRender(t);
  }

  /** The chat page's test `event.data.startsWith("<Me>")`. */
  predicate ChatIsMine(text: string) {
    StartsWith(text, SelfTag)
  }

  predicate OccursAt(s: string, pattern: string, p: nat) {
    p + |pattern| <= |s| && s[p..p + |pattern|] == pattern
  }

  /**
   * JavaScript `s.indexOf(pattern, from)`: the first position at or after
   * `from` where `pattern` occurs in s, or -1 when it occurs nowhere there.
   */
  function IndexOfFrom(s: string, pattern: string, from: nat): (k: int)
    ensures k == -1 || (from <= k && OccursAt(s, pattern, k))
    ensures k != -1 ==> forall p: nat :: from <= p < k ==> !OccursAt(s, pattern, p)
    ensures k == -1 ==> forall p: nat :: from <= p ==> !OccursAt(s, pattern, p)
    decreases |s| - from
  {
    if from + |pattern| > |s| then -1
    else if s[from..from + |pattern|] == pattern then from
    else IndexOfFrom(s, pattern, from + 1)
  }

  /** JavaScript `s.replace(pattern, "")`: deletes the first occurrence only. */
  function DeleteFirst(s: string, pattern: string): string {
    var k := IndexOfFrom(s, pattern, 0);
    if k < 0 then s else s[..k] + s[k + |pattern|..]
  }

  /** What the chat page shows for a received text. */
  function ChatDisplay(text: string): string {
    if ChatIsMine(text) then DeleteFirst(text, SelfTag) else DeleteFirst(text, OtherTag)
  }

  /** Each wire form starts with its own tag and not with the other. */
  lemma RenderTags(t: Tagged)
    ensures t.Mine? <==> StartsWith(Render(t), SelfTag)
    ensures t.Theirs? <==> StartsWith(Render(t), OtherTag)
  {
    var s := Render(t);
    if t.Mine? {
      assert s[..|SelfTag|] == SelfTag;
      SelfTagIsNotOtherTag(s);
    } else {
      assert s[..|OtherTag|] == OtherTag;
      OtherTagIsNotSelfTag(s);
    }
  }

  /**
   * The chat page classifies every broadcast text correctly: it takes it for
   * the reader's own message exactly when the recipient is the sender.
   */
  lemma ChatClassifiesWire(recipient: int, sender: int, message: string)
    ensures ChatIsMine(Wire(recipient, sender, message)) <==> recipient == sender
  {
    RenderTags(Classify(recipient, sender, message));
  }

  /** What the chat page shows for each form of tag, once the tag is stripped. */
  lemma ChatDisplaysRender(t: Tagged)
    ensures t.Mine? ==> ChatDisplay(Render(t)) == t.body
    ensures t.Theirs? ==> ChatDisplay(Render(t)) == "#" + t.suffix + ": " + t.body
  {
    var s := Render(t);
    match t
    case Mine(body) =>
      assert s[..|SelfTag|] == SelfTag;
      assert IndexOfFrom(s, SelfTag, 0) == 0;
      assert s[|SelfTag|..] == body;
    case Theirs(suffix, body) =>
      assert s[..|OtherTag|] == OtherTag;
      OtherTagIsNotSelfTag(s);
      assert IndexOfFrom(s, OtherTag, 0) == 0;
      assert s[|OtherTag|..] == "#" + suffix + ": " + body;
  }

  /**
   * After stripping the tag, the chat page shows the sender's own message
   * unchanged, and another client's as `#` + suffix + `: ` + message.
   */
  lemma ChatDisplaysWire(recipient: int, sender: int, message: string)
    ensures recipient == sender ==> ChatDisplay(Wire(recipient, sender, message)) == message
    ensures recipient != sender ==>
      ChatDisplay(Wire(recipient, sender, message)) == "#" + SenderSuffix(sender) + ": " + message
  {
    ChatDisplaysRender(Classify(recipient, sender, message));
  }
}
