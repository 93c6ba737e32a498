// A connection as two byte streams: messages framed by their length, sent and
// received in pieces of any length.

module Streams {
  import opened Wire
  import opened Serial
  import opened Messages

  // A message that can be framed: its length fits the length field.
  predicate Sendable(m: Message) {
    MessageOk(m) && |MessageBytes(m)| < Pow256(SIZE_WIDTH)
  }

  function Framed(m: Message): seq<byte>
    requires Sendable(m)
  {
    LittleEndian(|MessageBytes(m)|, SIZE_WIDTH) + MessageBytes(m)
  }

  predicate AllSendable(ms: seq<Message>) {
    forall i | 0 <= i < |ms| :: Sendable(ms[i])
  }

  function StreamOf(ms: seq<Message>): seq<byte>
    requires AllSendable(ms)
  {
    if ms == [] then [] else Framed(ms[0]) + StreamOf(ms[1..])
  }

  // --------------------------------------------------------------------- sending

  class Outgoing {
    var sent: seq<byte>

    constructor ()
      ensures sent == []
    {
      sent := [];
    }

    // Takes some of the bytes, at least one if there is one.
    method Send(bytes: seq<byte>) returns (n: nat)
      modifies this
      ensures n <= |bytes| && (bytes != [] ==> n > 0) && sent == old(sent) + bytes[..n]
    {
      n :| 0 <= n <= |bytes| && (bytes != [] ==> n > 0);
      sent := sent + bytes[..n];
    }

    method SendBytes(bytes: seq<byte>)
      modifies this
      ensures sent == old(sent) + bytes
    {
      var total := 0;
      while total != |bytes|
        invariant total <= |bytes| && sent == old(sent) + bytes[..total]
      {
        var n := Send(bytes[total..]);
        assert bytes[..total] + bytes[total..][..n] == bytes[..total + n];
        total := total + n;
      }
      assert bytes[..total] == bytes;
    }

    method SendMessage(m: Message)
      requires Sendable(m)
      modifies this
      ensures sent == old(sent) + Framed(m)
    {
      var bytes := BytesOf(m);
      hide MessageBytes, Pow256, LittleEndian;
      Associative(sent, LittleEndian(|bytes|, SIZE_WIDTH), bytes);
      SendBytes(LittleEndian(|bytes|, SIZE_WIDTH));
      SendBytes(bytes);
    }
  }

  // Sending messages one after the other makes their stream.
  method SendAll(out: Outgoing, ms: seq<Message>)
    requires AllSendable(ms)
    modifies out
    ensures out.sent == old(out.sent) + StreamOf(ms)
  {
    for i := 0 to |ms|
      invariant out.sent + StreamOf(ms[i..]) == old(out.sent) + StreamOf(ms)
    {
      assert ms[i..][1..] == ms[i + 1..];
      Associative(out.sent, Framed(ms[i]), StreamOf(ms[i + 1..]));
      hide Sendable, Framed;
      out.SendMessage(ms[i]);
    }
  }

  // ------------------------------------------------------------------- receiving

  class Incoming {
    const stream: seq<byte>
    var pos: nat

    ghost predicate Valid()
      reads this
    {
      pos <= |stream|
    }

    ghost function Rest(): seq<byte>
      requires Valid()
      reads this
    {
      stream[pos..]
    }

    constructor (stream: seq<byte>)
      ensures Valid() && this.stream == stream && Rest() == stream
    {
      this.stream := stream;
      pos := 0;
    }

    // Gives some bytes, at most max, and none only at the end of the stream.
    method Recv(max: nat) returns (bytes: seq<byte>)
      requires Valid() && max > 0
      modifies this
      ensures Valid() && |bytes| <= max && old(Rest()) == bytes + Rest()
      ensures bytes == [] <==> old(Rest()) == []
    {
      var n :| 0 <= n <= max && n <= |stream| - pos && (n == 0 ==> pos == |stream|);
      bytes := stream[pos..pos + n];
      pos := pos + n;
    }

    // Waits for all the bytes, or the end of the stream.
    method RecvBytes(count: nat) returns (bytes: seq<byte>)
      requires Valid()
      modifies this
      ensures Valid() && old(Rest()) == bytes + Rest() && |bytes| <= count
      ensures |bytes| < count ==> Rest() == []
    {
      bytes := [];
      while |bytes| != count
        invariant Valid() && |bytes| <= count && old(Rest()) == bytes + Rest()
        decreases count - |bytes|
      {
        var more := Recv(count - |bytes|);
        if more == [] { break; }
        Associative(bytes, more, Rest());
        bytes := bytes + more;
      }
    }

    // Nothing at the end of the stream, else the bytes of one message.
    method RecvMessage(ghost ms: seq<Message>) returns (found: bool, bytes: seq<byte>)
      requires Valid() && AllSendable(ms) && Rest() == StreamOf(ms)
      modifies this
      ensures Valid() && (found <==> ms != [])
      ensures found ==> bytes == MessageBytes(ms[0]) && Rest() == StreamOf(ms[1..])
    {
      bytes := [];
      var size := RecvBytes(SIZE_WIDTH);
      LengthComesFirst(ms, size, Rest());
      hide Framed, LittleEndian, Pow256, FromLittleEndian, Sendable, MessageBytes, StreamOf;
      found := size != [];
      if !found { return; }
      bytes := RecvBytes(FromLittleEndian(size));
      SplitAt(MessageBytes(ms[0]), StreamOf(ms[1..]), bytes, Rest());
    }
  }

  lemma SplitAt(a: seq<byte>, b: seq<byte>, c: seq<byte>, d: seq<byte>)
    requires a + b == c + d && (|a| == |c| || (|c| < |a| && d == []))
    ensures a == c && b == d
  {
    assert |a| == |c|;
    assert a == (a + b)[..|a|] && b == (a + b)[|a|..];
    assert c == (c + d)[..|a|] && d == (c + d)[|a|..];
  }

  // The first bytes of a stream are the length of its first message.
  lemma LengthComesFirst(ms: seq<Message>, size: seq<byte>, rest: seq<byte>)
    requires AllSendable(ms) && StreamOf(ms) == size + rest
    requires |size| == SIZE_WIDTH || (|size| < SIZE_WIDTH && rest == [])
    ensures size == [] <==> ms == []
    ensures ms != [] ==> FromLittleEndian(size) == |MessageBytes(ms[0])|
    ensures ms != [] ==> rest == MessageBytes(ms[0]) + StreamOf(ms[1..])
  {
    if ms != [] {
      FirstFrame(ms);
      hide Sendable, AllSendable, StreamOf, MessageBytes, LittleEndian, Pow256, FromLittleEndian, Framed;
      var body := MessageBytes(ms[0]);
      SplitAt(LittleEndian(|body|, SIZE_WIDTH), body + StreamOf(ms[1..]), size, rest);
    }
  }

  lemma FirstFrame(ms: seq<Message>)
    requires AllSendable(ms) && ms != []
    ensures MessageOk(ms[0]) && AllSendable(ms[1..])
    ensures var length := LittleEndian(|MessageBytes(ms[0])|, SIZE_WIDTH);
      && FromLittleEndian(length) == |MessageBytes(ms[0])|
      && StreamOf(ms) == length + (MessageBytes(ms[0]) + StreamOf(ms[1..]))
  {
    hide MessageBytes, MessageOk, LittleEndian, Pow256, FromLittleEndian;
    assert Sendable(ms[0]);
    var body, rest := MessageBytes(ms[0]), StreamOf(ms[1..]);
    NumberRoundTrip(|body|, SIZE_WIDTH);
    Associative(LittleEndian(|body|, SIZE_WIDTH), body, rest);
  }

  // --------------------------------------------------- what a stream stands for

  // The first message of a stream.
  function ReadFramed(s: seq<byte>): (r: Read<Message>)
    ensures r.Got? ==> |r.rest| < |s|
  {
    match ReadNumber(SIZE_WIDTH, s)
    case Failed => Failed
    case Got(size, rest) =>
      if |rest| < size then Failed
      else match ReadMessage(rest[..size])
        case Failed => Failed
        case Got(m, more) => if more == [] then Got(m, rest[size..]) else Failed
  }

  // All messages of a stream that ends with the last of them.
  function ReadStream(s: seq<byte>): Read<seq<Message>> {
    if s == [] then Got([], [])
    else match ReadFramed(s)
      case Failed => Failed
      case Got(m, rest) =>
        match ReadStream(rest)
        case Failed => Failed
        case Got(ms, end) => Got([m] + ms, end)
  }

  lemma FirstIsReadBack(ms: seq<Message>)
    requires AllSendable(ms) && ms != []
    ensures AllSendable(ms[1..]) && ReadFramed(StreamOf(ms)) == Got(ms[0], StreamOf(ms[1..]))
  {
    FirstFrame(ms);
    assert Sendable(ms[0]);
    hide Sendable, AllSendable, StreamOf, MessageBytes, LittleEndian, Pow256, FromLittleEndian, Framed, ReadMessage,
      MessageOk;
    var body, rest := MessageBytes(ms[0]), StreamOf(ms[1..]);
    var s := LittleEndian(|body|, SIZE_WIDTH) + (body + rest);
    assert s[..SIZE_WIDTH] == LittleEndian(|body|, SIZE_WIDTH) && s[SIZE_WIDTH..] == body + rest;
    assert (body + rest)[..|body|] == body && (body + rest)[|body|..] == rest;
    MessageIsReadBack(ms[0], []);
    assert body + [] == body;
  }

  // A stream of messages of any kinds decodes to exactly these messages.
  lemma {:induction false} StreamIsReadBack(ms: seq<Message>)
    requires AllSendable(ms)
    ensures ReadStream(StreamOf(ms)) == Got(ms, [])
  {
    if ms != [] {
      FirstIsReadBack(ms);
      FramesAreNotEmpty(ms);
      hide Sendable, Framed, ReadFramed;
      StreamIsReadBack(ms[1..]);
      assert ms == [ms[0]] + ms[1..];
    }
  }

  lemma FramesAreNotEmpty(ms: seq<Message>)
    requires AllSendable(ms) && ms != []
    ensures StreamOf(ms) != []
  {
    hide MessageBytes, Pow256;
    assert |Framed(ms[0])| >= SIZE_WIDTH;
  }

  // Different sequences of messages have different streams.
  lemma StreamsAreDistinct(a: seq<Message>, b: seq<Message>)
    requires AllSendable(a) && AllSendable(b) && StreamOf(a) == StreamOf(b)
    ensures a == b
  {
    hide StreamOf, ReadStream;
    StreamIsReadBack(a);
    StreamIsReadBack(b);
  }

  // ------------------------------------------------------------ the message loop

  // The connection's thread has no handler for these two kinds and fails its
  // assertion: they are read during registration only.
  predicate Rejected(m: Message) {
    m.body.Register? || m.body.Directory?
  }

  // What a connection handles of the messages: all up to the first kill, or up
  // to the first one that is rejected.
  function Handled(ms: seq<Message>): seq<Message> {
    if ms == [] || Rejected(ms[0]) then []
    else if ms[0].body == Kill then [ms[0]]
    else [ms[0]] + Handled(ms[1..])
  }

  // Message i is a register or directory message, and no kill comes before it.
  predicate RejectedAt(ms: seq<Message>, i: nat) {
    i < |ms| && (ms[i].body.Register? || ms[i].body.Directory?) && forall k | 0 <= k < i :: !ms[k].body.Kill?
  }

  ghost predicate RejectedFirst(ms: seq<Message>) {
    exists i: nat :: RejectedAt(ms, i)
  }

  // Messages of these five kinds are handled, up to the first kill and with it.
  lemma {:induction false} AllAreHandled(ms: seq<Message>, n: nat)
    requires n <= |ms| && (n < |ms| ==> ms[n].body == Kill)
    requires forall i | 0 <= i < n ::
      var b := ms[i].body; b.Status? || b.Get? || b.Put? || b.WaitAndGet? || b.Reply?
    ensures Handled(ms) == ms[..if n < |ms| then n + 1 else n] && !RejectedFirst(ms)
  {
    if n == 0 {
      assert ms != [] ==> ms[..1] == [ms[0]];
    } else {
      var rest := ms[1..];
      assert forall i | 0 <= i < |rest| :: rest[i] == ms[i + 1];
      AllAreHandled(rest, n - 1);
      RejectedLater(ms);
      assert ms[..n] == [ms[0]] + rest[..n - 1];
      assert n < |ms| ==> ms[..n + 1] == [ms[0]] + rest[..n];
    }
  }

  // A register or directory message that comes first fails the assertion, after
  // the messages before it are handled.
  lemma {:induction false} HandledUntilRejected(ms: seq<Message>, n: nat)
    requires n < |ms| && (ms[n].body.Register? || ms[n].body.Directory?)
    requires forall i | 0 <= i < n ::
      var b := ms[i].body; b.Status? || b.Get? || b.Put? || b.WaitAndGet? || b.Reply?
    ensures Handled(ms) == ms[..n] && RejectedFirst(ms)
  {
    if n == 0 {
      RejectedAtOnce(ms);
    } else {
      var rest := ms[1..];
      assert forall i | 0 <= i < |rest| :: rest[i] == ms[i + 1];
      HandledUntilRejected(rest, n - 1);
      RejectedLater(ms);
      assert ms[..n] == [ms[0]] + rest[..n - 1];
    }
  }

  // One of the two is the case for every sequence of messages.
  lemma {:induction false} EverySequenceEndsSo(ms: seq<Message>) returns (n: nat)
    ensures n <= |ms|
    ensures forall i | 0 <= i < n ::
      var b := ms[i].body; b.Status? || b.Get? || b.Put? || b.WaitAndGet? || b.Reply?
    ensures n < |ms| ==> ms[n].body == Kill || ms[n].body.Register? || ms[n].body.Directory?
  {
    n := 0;
    if ms != [] && ms[0].body != Kill && !Rejected(ms[0]) {
      var k := EverySequenceEndsSo(ms[1..]);
      n := k + 1;
      assert forall i | 0 < i < |ms| :: ms[i] == ms[1..][i - 1];
    }
  }

  // What is handled is a first part of what was sent: nothing after a kill and
  // nothing that is rejected; and it ends early only for one of the two.
  lemma {:induction false} HandledUpToKill(ms: seq<Message>)
    ensures Handled(ms) <= ms
    ensures forall i | 0 <= i < |Handled(ms)| :: !ms[i].body.Register? && !ms[i].body.Directory?
    ensures forall i | 0 <= i < |Handled(ms)| - 1 :: !ms[i].body.Kill?
    ensures Handled(ms) == ms || (Handled(ms) != [] && ms[|Handled(ms)| - 1].body.Kill?)
      || ms[|Handled(ms)|].body.Register? || ms[|Handled(ms)|].body.Directory?
  {
    if ms != [] && ms[0].body != Kill && !Rejected(ms[0]) {
      HandledUpToKill(ms[1..]);
      assert forall i | 0 < i < |ms| :: ms[i] == ms[1..][i - 1];
    }
  }

  lemma RejectedLater(ms: seq<Message>)
    requires ms != [] && !Rejected(ms[0])
    ensures RejectedFirst(ms) <==> ms[0].body != Kill && RejectedFirst(ms[1..])
  {
    if i: nat :| RejectedAt(ms, i) {
      assert forall k | 0 <= k < i :: ms[1..][k] == ms[k + 1];
      assert RejectedAt(ms[1..], i - 1);
    }
    if i: nat :| RejectedAt(ms[1..], i) {
      assert forall k | 0 < k <= i + 1 :: ms[k] == ms[1..][k - 1];
      assert ms[0].body != Kill ==> RejectedAt(ms, i + 1);
    }
  }

  // handle_message_: finds the handler of the kind, ends the loop on a kill, or
  // fails its assertion.
  method Dispatch(m: Message) returns (ok: bool, keep: bool)
    ensures ok <==> !m.body.Register? && !m.body.Directory?
    ensures ok ==> (keep <==> !m.body.Kill?)
  {
    ok, keep := true, true;
    match m.body
    case Status(_) =>
    case Get(_) =>
    case Put(_, _) =>
    case WaitAndGet(_) =>
    case Reply(_) =>
    case Kill => keep := false;
    case _ => ok := false;
  }

  // Of ms the messages in handled are handled; the rest is left if the loop goes
  // on.
  ghost predicate SoFar(ms: seq<Message>, handled: seq<Message>, keep: bool, left: seq<Message>) {
    && Handled(ms) == handled + (if keep then Handled(left) else [])
    && (RejectedFirst(ms) <==> keep && RejectedFirst(left))
  }

  lemma SoFarNext(ms: seq<Message>, handled: seq<Message>, left: seq<Message>, m: Message, keep: bool)
    requires left != [] && SoFar(ms, handled, true, left) && SoFar(left, [m], keep, left[1..])
    ensures SoFar(ms, handled + [m], keep, left[1..])
  {
    hide Handled, RejectedFirst;
  }

  // One round of the loop.
  method HandleNext(conn: Incoming, ghost ms: seq<Message>) returns (found: bool, ok: bool, keep: bool, m: Message)
    requires conn.Valid() && AllSendable(ms) && conn.Rest() == StreamOf(ms)
    modifies conn
    ensures (found <==> ms != []) && (!found ==> ok)
    ensures found && !ok ==> Handled(ms) == [] && RejectedFirst(ms)
    ensures found && ok ==> conn.Valid() && AllSendable(ms[1..]) && conn.Rest() == StreamOf(ms[1..])
    ensures found && ok ==> SoFar(ms, [m], keep, ms[1..])
  {
    ok, keep := true, true;
    hide StreamOf, Sendable, RejectedFirst;
    found, m := NextMessage(conn, ms);
    if !found { return; }
    ok, keep := Dispatch(m);
    if ok { RejectedLater(ms); } else { RejectedAtOnce(ms); }
  }

  lemma RejectedAtOnce(ms: seq<Message>)
    requires ms != [] && Rejected(ms[0])
    ensures RejectedFirst(ms) && Handled(ms) == []
  {
    assert RejectedAt(ms, 0);
  }

  // The loop of a connection's thread: it decodes exactly the messages sent,
  // and fails exactly if a register or directory message comes before a kill.
  method Run(conn: Incoming, ghost ms: seq<Message>) returns (handled: seq<Message>, ok: bool)
    requires conn.Valid() && AllSendable(ms) && conn.Rest() == StreamOf(ms)
    modifies conn
    ensures handled == Handled(ms) && (ok <==> !exists i: nat :: RejectedAt(ms, i))
  {
    handled, ok := [], true;
    var keepProcessing := true;
    ghost var left := ms;
    NothingLeft();
    assert SoFar(ms, [], true, ms) by { assert Handled(ms) == [] + Handled(ms); }
    hide Handled, RejectedFirst, SoFar, StreamOf, AllSendable;
    while keepProcessing
      invariant conn.Valid() && AllSendable(left) && conn.Rest() == StreamOf(left) && ok
      invariant SoFar(ms, handled, keepProcessing, left)
      decreases |left|, keepProcessing
    {
      var found, m;
      found, ok, keepProcessing, m := HandleNext(conn, left);
      if !found || !ok {
        EndsHere(ms, handled, left);
        return;
      }
      SoFarNext(ms, handled, left, m, keepProcessing);
      handled := handled + [m];
      left := left[1..];
    }
    KillEnds(ms, handled, left);
  }

  lemma EndsHere(ms: seq<Message>, handled: seq<Message>, left: seq<Message>)
    requires SoFar(ms, handled, true, left) && Handled(left) == []
    ensures Handled(ms) == handled && (RejectedFirst(ms) <==> RejectedFirst(left))
  {
    hide Handled, RejectedFirst;
  }

  lemma KillEnds(ms: seq<Message>, handled: seq<Message>, left: seq<Message>)
    requires SoFar(ms, handled, false, left)
    ensures Handled(ms) == handled && !RejectedFirst(ms)
  {
    hide Handled, RejectedFirst;
  }

  lemma NothingLeft()
    ensures Handled([]) == [] && !RejectedFirst([])
  {
  }

  method NextMessage(conn: Incoming, ghost ms: seq<Message>) returns (found: bool, m: Message)
    requires conn.Valid() && AllSendable(ms) && conn.Rest() == StreamOf(ms)
    modifies conn
    ensures conn.Valid() && (found <==> ms != [])
    ensures found ==> m == ms[0] && AllSendable(ms[1..]) && conn.Rest() == StreamOf(ms[1..])
  {
    m := Message(0, 0, 0, Kill);
    hide StreamOf, MessageBytes;
    var bytes;
    found, bytes := conn.RecvMessage(ms);
    if !found { return; }
    assert Sendable(ms[0]);
    MessageIsReadBack(ms[0], []);
    assert MessageBytes(ms[0]) + [] == bytes;
    var d := new Deserializer(bytes);
    var ok;
    ok, m := GetMessage(d);
  }

  // Whatever pieces the two ends use, what is handled is what was sent.
  method SendAndReceive(ms: seq<Message>) returns (handled: seq<Message>, ok: bool)
    requires AllSendable(ms)
    ensures handled == Handled(ms) && (ok <==> !exists i: nat :: RejectedAt(ms, i))
  {
    var out := new Outgoing();
    SendAll(out, ms);
    assert [] + StreamOf(ms) == StreamOf(ms);
    var conn := new Incoming(out.sent);
    handled, ok := Run(conn, ms);
  }
}
