/**
 * Framing of peer messages: an eight-byte big-endian head and a body (p2p/src/codec.rs, p2p/src/msg.rs).
 */
module Codec {
  import opened Basics

  type U8 = x: nat | x < 0x100
  type U16 = x: nat | x < 0x1_0000
  type U32 = x: nat | x < 0x1_0000_0000

  const HEADER_LENGTH: nat := 8
  const VERSION_2: nat := 2

  datatype Head = Head(ver: U16, ctrl: U8, action: U8, len: U32)

  datatype ChannelBuffer = ChannelBuffer(head: Head, body: seq<U8>)

  /** The last `k` big-endian base-256 digits of `n`. */
  function BigEndian(n: nat, k: nat): (bytes: seq<U8>)
    ensures |bytes| == k
  {
    if k == 0 then [] else BigEndian(n / 0x100, k - 1) + [n % 0x100]
  }

  function FromBigEndian(bytes: seq<U8>): nat {
    if bytes == [] then 0 else FromBigEndian(bytes[..|bytes| - 1]) * 0x100 + bytes[|bytes| - 1] as nat
  }

  function Power(k: nat): nat {
    if k == 0 then 1 else Power(k - 1) * 0x100
  }

  lemma {:induction false} FromBigEndianBound(bytes: seq<U8>)
    ensures FromBigEndian(bytes) < Power(|bytes|)
    decreases |bytes|
  {
    if bytes != [] {
      FromBigEndianBound(bytes[..|bytes| - 1]);
    }
  }

  lemma {:induction false} BigEndianThere(n: nat, k: nat)
    requires n < Power(k)
    ensures FromBigEndian(BigEndian(n, k)) == n
    decreases k
  {
    if k > 0 {
      var bytes := BigEndian(n, k);
      assert bytes[..k - 1] == BigEndian(n / 0x100, k - 1);
      BigEndianThere(n / 0x100, k - 1);
    }
  }

  lemma {:induction false} BigEndianBack(bytes: seq<U8>)
    ensures BigEndian(FromBigEndian(bytes), |bytes|) == bytes
    decreases |bytes|
  {
    if bytes != [] {
      var front, last := bytes[..|bytes| - 1], bytes[|bytes| - 1] as nat;
      var n := FromBigEndian(bytes);
      assert n / 0x100 == FromBigEndian(front) && n % 0x100 == last;
      BigEndianBack(front);
      assert front + [bytes[|bytes| - 1]] == bytes;
    }
  }

  lemma Powers()
    ensures Power(2) == 0x1_0000 && Power(4) == 0x1_0000_0000
  {
    assert Power(1) == 0x100 && Power(3) == 0x100_0000;
  }

  function EncodeHead(h: Head): (bytes: seq<U8>)
    ensures |bytes| == HEADER_LENGTH
  {
    BigEndian(h.ver, 2) + [h.ctrl, h.action] + BigEndian(h.len, 4)
  }

  function DecodeHead(bytes: seq<U8>): Head
    requires |bytes| == HEADER_LENGTH
  {
    FromBigEndianBound(bytes[..2]);
    FromBigEndianBound(bytes[4..]);
    Powers();
    Head(FromBigEndian(bytes[..2]), bytes[2], bytes[3], FromBigEndian(bytes[4..]))
  }

  /** The bytes of a head and the head determine each other. */
  lemma HeadRoundTrip(h: Head, bytes: seq<U8>)
    requires |bytes| == HEADER_LENGTH
    ensures DecodeHead(bytes) == h <==> bytes == EncodeHead(h)
  {
    if DecodeHead(bytes) == h {
      BigEndianBack(bytes[..2]);
      BigEndianBack(bytes[4..]);
      assert bytes == bytes[..2] + [bytes[2], bytes[3]] + bytes[4..];
    }
    if bytes == EncodeHead(h) {
      Powers();
      BigEndianThere(h.ver, 2);
      BigEndianThere(h.len, 4);
      assert bytes[..2] == BigEndian(h.ver, 2) && bytes[4..] == BigEndian(h.len, 4);
    }
  }

  /** The eight bytes of a head, the most significant first. */
  lemma HeadLayout(h: Head)
    ensures EncodeHead(h) == [h.ver / 0x100, h.ver % 0x100, h.ctrl, h.action, h.len / 0x100_0000,
                              h.len / 0x1_0000 % 0x100, h.len / 0x100 % 0x100, h.len % 0x100]
  {
    TwoDigits(h.ver);
    FourDigits(h.len);
  }

  lemma TwoDigits(n: U16)
    ensures BigEndian(n, 2) == [n / 0x100, n % 0x100]
  {
    assert BigEndian(n / 0x100, 1) == BigEndian(n / 0x100 / 0x100, 0) + [n / 0x100 % 0x100];
  }

  lemma FourDigits(n: U32)
    ensures BigEndian(n, 4) == [n / 0x100_0000, n / 0x1_0000 % 0x100, n / 0x100 % 0x100, n % 0x100]
  {
    var n1, n2, n3 := n / 0x100, n / 0x1_0000, n / 0x100_0000;
    assert n1 / 0x100 == n2 && n2 / 0x100 == n3;
    assert BigEndian(n3, 1) == BigEndian(n3 / 0x100, 0) + [n3 % 0x100];
    assert BigEndian(n2, 2) == BigEndian(n3, 1) + [n2 % 0x100];
    assert BigEndian(n1, 3) == BigEndian(n2, 2) + [n1 % 0x100];
  }

  function Encode(m: ChannelBuffer): seq<U8> {
    EncodeHead(m.head) + m.body
  }

  predicate ValidHead(h: Head) {
    h.ver <= VERSION_2 && h.ctrl <= 1
  }

  /** The decoder takes such messages, and they announce their true length. */
  predicate Acceptable(m: ChannelBuffer) {
    ValidHead(m.head) && m.head.len == |m.body|
  }

  /** One `decode`: the message, if any, and the bytes left in the buffer. */
  function Decode(src: seq<U8>): (Option<ChannelBuffer>, seq<U8>) {
    if |src| < HEADER_LENGTH then (None, src)
    else
      var head := DecodeHead(src[..HEADER_LENGTH]);
      if !ValidHead(head) then (None, [])
      else if head.len + HEADER_LENGTH > |src| then (None, src)
      else (Some(ChannelBuffer(head, src[HEADER_LENGTH..HEADER_LENGTH + head.len])), src[HEADER_LENGTH + head.len..])
  }

  /** Decoding yields `m` and leaves `rest` if and only if `m` is acceptable and its encoding came before `rest`. */
  lemma DecodeIff(src: seq<U8>, m: ChannelBuffer, rest: seq<U8>)
    ensures Decode(src) == (Some(m), rest) <==> Acceptable(m) && src == Encode(m) + rest
  {
    var e := Encode(m);
    if Decode(src) == (Some(m), rest) {
      HeadRoundTrip(m.head, src[..HEADER_LENGTH]);
      assert src == src[..HEADER_LENGTH] + src[HEADER_LENGTH..HEADER_LENGTH + m.head.len]
             + src[HEADER_LENGTH + m.head.len..];
    }
    if Acceptable(m) && src == e + rest {
      assert src[..HEADER_LENGTH] == EncodeHead(m.head);
      HeadRoundTrip(m.head, src[..HEADER_LENGTH]);
      assert src[HEADER_LENGTH..HEADER_LENGTH + m.head.len] == m.body;
      assert src[HEADER_LENGTH + m.head.len..] == rest;
    }
  }

  /** The round trip holds exactly for acceptable messages, whatever follows them. */
  lemma RoundTripIff(m: ChannelBuffer, rest: seq<U8>)
    ensures Decode(Encode(m) + rest) == (Some(m), rest) <==>
            m.head.ver <= 2 && m.head.ctrl <= 1 && m.head.len == |m.body|
  {
    DecodeIff(Encode(m) + rest, m, rest);
  }

  /** The beginning of an acceptable message is kept until the rest has come. */
  lemma IncompleteWaits(m: ChannelBuffer, src: seq<U8>)
    requires Acceptable(m) && src <= Encode(m) && src != Encode(m)
    ensures Decode(src) == (None, src)
  {
    var e := Encode(m);
    assert e[..|e|] == e;
    assert |src| < |e|;
    if |src| >= HEADER_LENGTH {
      assert src[..HEADER_LENGTH] == e[..HEADER_LENGTH] == EncodeHead(m.head);
      HeadRoundTrip(m.head, src[..HEADER_LENGTH]);
    }
  }

  /** A head the decoder does not take costs everything received so far. */
  lemma InvalidHeadDropsAll(src: seq<U8>)
    requires |src| >= HEADER_LENGTH
    ensures Decode(src) == (None, []) <==> !ValidHead(DecodeHead(src[..HEADER_LENGTH]))
  {
  }

  class Buffer {
    var bytes: seq<U8>

    constructor ()
      ensures bytes == []
    {
      bytes := [];
    }

    method EncodeItem(item: ChannelBuffer)
      modifies this
      ensures bytes == old(bytes) + Encode(item)
    {
      bytes := bytes + EncodeHead(item.head);
      bytes := bytes + item.body;
    }

    method DecodeItem() returns (item: Option<ChannelBuffer>)
      modifies this
      ensures (item, bytes) == Decode(old(bytes))
    {
      var len := |bytes|;
      if len >= HEADER_LENGTH {
        var head := DecodeHead(bytes[..HEADER_LENGTH]);
        if head.ver > VERSION_2 || head.ctrl > 1 {
          bytes := [];
          return None;
        } else if head.len + HEADER_LENGTH > len {
          return None;
        }
        var buf := bytes[..head.len + HEADER_LENGTH];
        bytes := bytes[head.len + HEADER_LENGTH..];
        return Some(ChannelBuffer(head, buf[HEADER_LENGTH..]));
      }
      return None;
    }
  }

  // ---------------------------------------------------------------------------------------------
  // Streams

  function EncodeAll(ms: seq<ChannelBuffer>): seq<U8> {
    if ms == [] then [] else Encode(ms[0]) + EncodeAll(ms[1..])
  }

  /** Decode until nothing more comes, as the framed stream does after every arrival. */
  function Drain(src: seq<U8>): (seq<ChannelBuffer>, seq<U8>)
    decreases |src|
  {
    var (item, rest) := Decode(src);
    if item.None? then ([], rest)
    else
      var (items, last) := Drain(rest);
      ([item.value] + items, last)
  }

  /** What has been delivered, and what is buffered, after the chunks have arrived. */
  function Receive(chunks: seq<seq<U8>>): (seq<ChannelBuffer>, seq<U8>) {
    if chunks == [] then ([], [])
    else
      var (items, buffered) := Receive(chunks[..|chunks| - 1]);
      var (more, rest) := Drain(buffered + chunks[|chunks| - 1]);
      (items + more, rest)
  }

  function Joined(chunks: seq<seq<U8>>): seq<U8> {
    if chunks == [] then [] else Joined(chunks[..|chunks| - 1]) + chunks[|chunks| - 1]
  }

  ghost predicate AllAcceptable(ms: seq<ChannelBuffer>) {
    forall m :: m in ms ==> Acceptable(m)
  }

  /** The buffer is a beginning of the stream of `ms` that does not reach the end of its first message. */
  ghost predicate Waiting(buffered: seq<U8>, ms: seq<ChannelBuffer>) {
    buffered <= EncodeAll(ms) && (ms != [] ==> |buffered| < |Encode(ms[0])|)
  }

  /** A stream that reaches past its first message is that message and a beginning of the others. */
  lemma FirstOff(src: seq<U8>, e: seq<U8>, others: seq<U8>)
    requires src <= e + others
    ensures |src| < |e| ==> src <= e && src != e
    ensures |src| >= |e| ==> src == e + src[|e|..] && src[|e|..] <= others
  {
    var whole := e + others;
    assert src == whole[..|src|];
    if |src| < |e| {
      assert src == e[..|src|];
    } else {
      assert src[|e|..] == others[..|src| - |e|];
    }
  }

  /** Draining the beginning of a stream delivers the complete messages, in order, and keeps the incomplete one. */
  lemma {:induction false} DrainStream(src: seq<U8>, ms: seq<ChannelBuffer>)
    requires AllAcceptable(ms) && src <= EncodeAll(ms)
    ensures var (items, rest) := Drain(src);
            items <= ms && EncodeAll(items) + rest == src && Waiting(rest, ms[|items|..])
    decreases |ms|
  {
    if ms == [] {
      assert Decode(src) == (None, src);
    } else {
      var e, tail := Encode(ms[0]), ms[1..];
      FirstOff(src, e, EncodeAll(tail));
      if |src| < |e| {
        IncompleteWaits(ms[0], src);
        assert Drain(src) == ([], src) && ms[0..] == ms;
      } else {
        var src' := src[|e|..];
        DecodeIff(src, ms[0], src');
        DrainStream(src', tail);
        DrainCons(src, src', ms);
      }
    }
  }

  lemma DrainCons(src: seq<U8>, src': seq<U8>, ms: seq<ChannelBuffer>)
    requires ms != [] && Decode(src) == (Some(ms[0]), src') && src == Encode(ms[0]) + src'
    requires var (items, rest) := Drain(src');
             items <= ms[1..] && EncodeAll(items) + rest == src' && Waiting(rest, ms[1..][|items|..])
    ensures var (items, rest) := Drain(src);
            items <= ms && EncodeAll(items) + rest == src && Waiting(rest, ms[|items|..])
  {
    var (items, rest) := Drain(src');
    var all := [ms[0]] + items;
    assert Drain(src) == (all, rest);
    PrefixCons(items, ms);
    assert all[1..] == items;
    Associate(Encode(ms[0]), EncodeAll(items), rest);
  }

  lemma PrefixCons<T>(s: seq<T>, ms: seq<T>)
    requires ms != [] && s <= ms[1..]
    ensures [ms[0]] + s <= ms && ms[|[ms[0]] + s|..] == ms[1..][|s|..]
  {
    assert ms == [ms[0]] + ms[1..];
  }

  lemma {:induction false} EncodeAllAppend(a: seq<ChannelBuffer>, b: seq<ChannelBuffer>)
    ensures EncodeAll(a + b) == EncodeAll(a) + EncodeAll(b)
    decreases |a|
  {
    if a == [] {
      assert a + b == b;
    } else {
      assert (a + b)[1..] == a[1..] + b;
      EncodeAllAppend(a[1..], b);
    }
  }

  /** After a bad head the outcome depends on the cut: in one chunk the message behind it is lost, in two it arrives. */
  lemma BadHeadDependsOnCut(bad: Head, m: ChannelBuffer)
    requires !ValidHead(bad) && Acceptable(m)
    ensures Receive([EncodeHead(bad) + Encode(m)]) == ([], [])
    ensures Receive([EncodeHead(bad), Encode(m)]) == ([m], [])
  {
    var together, head := EncodeHead(bad) + Encode(m), EncodeHead(bad);
    HeadRoundTrip(bad, head);
    assert head[..HEADER_LENGTH] == head && together[..HEADER_LENGTH] == head;
    ReceiveOne(together);
    ReceiveOne(head);
    ReceiveMore([head], Encode(m));
    assert [head] + [Encode(m)] == [head, Encode(m)];
    assert Receive([head]) == ([], []) && [] + Encode(m) == Encode(m) == Encode(m) + [];
    DecodeIff(Encode(m), m, []);
    assert Drain([]) == ([], []) && [m] + [] == [m] == [] + [m];
  }

  lemma ReceiveMore(chunks: seq<seq<U8>>, chunk: seq<U8>)
    ensures var (items, buffered) := Receive(chunks); var (more, rest) := Drain(buffered + chunk);
            Receive(chunks + [chunk]) == (items + more, rest)
  {
    assert (chunks + [chunk])[..|chunks|] == chunks;
  }

  lemma ReceiveOne(chunk: seq<U8>)
    ensures Receive([chunk]) == Drain(chunk)
  {
    var (items, rest) := Drain(chunk);
    ReceiveMore([], chunk);
    assert [] + [chunk] == [chunk] && [] + chunk == chunk && [] + items == items;
  }

  // ---------------------------------------------------------------------------------------------
  // When the cut matters

  /** Draining `s` reaches an invalid head with more behind it. */
  predicate Spoilt(s: seq<U8>)
    decreases |s|
  {
    var (item, rest) := Decode(s);
    if item.Some? then Spoilt(rest)
    else |s| > HEADER_LENGTH && !ValidHead(DecodeHead(s[..HEADER_LENGTH]))
  }

  /** A message at the front is decoded whatever follows. */
  lemma DecodeLonger(a: seq<U8>, b: seq<U8>)
    requires Decode(a).0.Some?
    ensures Decode(a + b) == (Decode(a).0, Decode(a).1 + b) && |Decode(a).1| < |a|
  {
    var (item, rest) := Decode(a);
    DecodeIff(a, item.value, rest);
    Associate(Encode(item.value), rest, b);
    DecodeIff(a + b, item.value, rest + b);
  }

  /** Unless the stream is spoilt, draining in two goes is draining at once. */
  lemma {:induction false} DrainSplit(a: seq<U8>, b: seq<U8>)
    requires !Spoilt(a + b)
    ensures var (items, rest) := Drain(a); var (more, last) := Drain(rest + b); Drain(a + b) == (items + more, last)
    decreases |a|
  {
    var (item, rest) := Decode(a);
    if item.Some? {
      DecodeLonger(a, b);
      DrainSplit(rest, b);
      var (items, left) := Drain(rest);
      Associate([item.value], items, Drain(left + b).0);
    } else if rest != a {
      assert (a + b)[..HEADER_LENGTH] == a[..HEADER_LENGTH];
      assert b == [] && a + b == a && rest + b == [];
      assert Drain([]) == ([], []);
    } else {
      var (more, last) := Drain(a + b);
      assert [] + more == more;
    }
  }

  lemma {:induction false} SpoiltPrefix(a: seq<U8>, b: seq<U8>)
    requires Spoilt(a)
    ensures Spoilt(a + b)
    decreases |a|
  {
    var (item, rest) := Decode(a);
    if item.Some? {
      DecodeLonger(a, b);
      SpoiltPrefix(rest, b);
    } else {
      assert (a + b)[..HEADER_LENGTH] == a[..HEADER_LENGTH];
    }
  }

  /** What is not spoilt is received the same however it is cut. */
  lemma {:induction false} CutDoesNotMatter(chunks: seq<seq<U8>>)
    requires !Spoilt(Joined(chunks))
    ensures Receive(chunks) == Drain(Joined(chunks))
    decreases |chunks|
  {
    if chunks != [] {
      var front, chunk := chunks[..|chunks| - 1], chunks[|chunks| - 1];
      if Spoilt(Joined(front)) {
        SpoiltPrefix(Joined(front), chunk);
      }
      CutDoesNotMatter(front);
      DrainSplit(Joined(front), chunk);
    }
  }

  /** The beginning of a stream of acceptable messages is not spoilt. */
  lemma {:induction false} StreamNotSpoilt(src: seq<U8>, ms: seq<ChannelBuffer>)
    requires AllAcceptable(ms) && src <= EncodeAll(ms)
    ensures !Spoilt(src)
    decreases |ms|
  {
    if ms != [] {
      var e := Encode(ms[0]);
      FirstOff(src, e, EncodeAll(ms[1..]));
      if |src| < |e| {
        IncompleteWaits(ms[0], src);
        InvalidHeadNever(src);
      } else {
        DecodeIff(src, ms[0], src[|e|..]);
        StreamNotSpoilt(src[|e|..], ms[1..]);
      }
    }
  }

  /** What decoding keeps has no invalid head. */
  lemma InvalidHeadNever(src: seq<U8>)
    requires Decode(src) == (None, src)
    ensures !Spoilt(src)
  {
  }

  /**
   * However the bytes of acceptable messages are cut into chunks, after each chunk exactly the messages
   * completed so far have been delivered, in order, and the bytes of the next one are waiting.
   */
  lemma StreamDelivers(chunks: seq<seq<U8>>, ms: seq<ChannelBuffer>)
    requires AllAcceptable(ms) && Joined(chunks) <= EncodeAll(ms)
    ensures var (items, buffered) := Receive(chunks);
            items <= ms && EncodeAll(items) + buffered == Joined(chunks) && Waiting(buffered, ms[|items|..])
  {
    StreamNotSpoilt(Joined(chunks), ms);
    CutDoesNotMatter(chunks);
    DrainStream(Joined(chunks), ms);
  }

  /** Once all the bytes are there, all the messages are delivered and nothing is left. */
  lemma WholeStreamDelivered(chunks: seq<seq<U8>>, ms: seq<ChannelBuffer>)
    requires AllAcceptable(ms) && Joined(chunks) == EncodeAll(ms)
    ensures Receive(chunks) == (ms, [])
  {
    StreamDelivers(chunks, ms);
    var (items, buffered) := Receive(chunks);
    var left := ms[|items|..];
    assert ms == items + left;
    EncodeAllAppend(items, left);
    assert (EncodeAll(items) + buffered)[|EncodeAll(items)|..] == buffered;
    assert (EncodeAll(items) + EncodeAll(left))[|EncodeAll(items)|..] == EncodeAll(left);
    assert buffered == EncodeAll(left);
    assert left == [] && items + left == items;
  }

  /** What is spoilt loses everything from the invalid head on, and so does all of it but the last byte. */
  lemma {:induction false} SpoiltDrain(s: seq<U8>)
    requires Spoilt(s)
    ensures s != [] && Drain(s).1 == [] && Drain(s[..|s| - 1]) == Drain(s)
    decreases |s|
  {
    var (item, rest) := Decode(s);
    if item.Some? {
      SpoiltDrain(rest);
      var m, shorter := item.value, rest[..|rest| - 1];
      DecodeIff(s, m, rest);
      assert s[..|s| - 1] == Encode(m) + shorter;
      DecodeIff(s[..|s| - 1], m, shorter);
    } else {
      assert s[..|s| - 1][..HEADER_LENGTH] == s[..HEADER_LENGTH];
    }
  }

  lemma JoinedMore(chunks: seq<seq<U8>>, chunk: seq<U8>)
    ensures Joined(chunks + [chunk]) == Joined(chunks) + chunk
  {
    assert (chunks + [chunk])[..|chunks|] == chunks;
  }

  lemma JoinedTwo(first: seq<U8>, last: seq<U8>)
    ensures Joined([first] + [last]) == first + last
  {
    JoinedMore([], first);
    assert [] + [first] == [first] && [] + first == first;
    JoinedMore([first], last);
  }

  /** A single byte only waits. */
  lemma ReceiveByte(first: seq<U8>, last: seq<U8>)
    requires Drain(first).1 == [] && |last| == 1
    ensures Receive([first] + [last]) == (Drain(first).0, last)
  {
    ReceiveOne(first);
    ReceiveMore([first], last);
    assert [] + last == last && Drain(last) == ([], last);
    assert Drain(first).0 + [] == Drain(first).0;
  }

  /** Cut before its last byte, a spoilt stream leaves that byte behind. */
  lemma SpoiltCut(s: seq<U8>)
    requires Spoilt(s)
    ensures s != []
    ensures var chunks := [s[..|s| - 1]] + [s[|s| - 1..]]; Joined(chunks) == s && Receive(chunks) != Receive([s])
  {
    SpoiltDrain(s);
    var first, last := s[..|s| - 1], s[|s| - 1..];
    ReceiveOne(s);
    ReceiveByte(first, last);
    JoinedTwo(first, last);
    assert first + last == s;
  }

  /**
   * However its bytes are cut, a stream is received as if it came at once, if and only if draining it
   * reaches no invalid head with more behind it.
   */
  lemma CutDoesNotMatterIff(s: seq<U8>)
    ensures (forall chunks :: Joined(chunks) == s ==> Receive(chunks) == Receive([s])) <==> !Spoilt(s)
  {
    if Spoilt(s) {
      SpoiltCut(s);
    } else {
      ReceiveOne(s);
      forall chunks | Joined(chunks) == s
        ensures Receive(chunks) == Receive([s])
      {
        CutDoesNotMatter(chunks);
      }
    }
  }
}
