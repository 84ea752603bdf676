/** The little-endian message codec of test/new_test.go: sender loop and receiver loop. */
module Wire {
  import opened Frames

  const WORD: nat := 0x1_0000_0000

  datatype Message = Message(id: int, body: seq<byte>)

  /** Both header fields fit in 32 bits. */
  predicate Sendable(m: Message) {
    0 <= m.id < WORD && |m.body| < WORD
  }

  /** The value of a byte string, least significant byte first. */
  function Value(b: seq<byte>): nat {
    if b == [] then 0 else b[0] as nat + 256 * Value(b[1..])
  }

  /** binary.LittleEndian.PutUint32(a[at..], v) */
  method PutUint32(a: array<byte>, at: nat, v: nat)
    requires at + 4 <= a.Length && v < WORD
    modifies a
    ensures Value(a[at..at + 4]) == v
    ensures a[..at] == old(a[..at]) && a[at + 4..] == old(a[at + 4..])
  {
    a[at] := (v % 256) as byte;
    a[at + 1] := (v / 256 % 256) as byte;
    a[at + 2] := (v / 65536 % 256) as byte;
    a[at + 3] := (v / 16777216) as byte;
    FourBytes(a[at..at + 4]);
    Digits(v);
  }

  lemma Digits(v: nat)
    ensures v % 256 + 256 * (v / 256 % 256) + 65536 * (v / 65536 % 256) + 16777216 * (v / 16777216) == v
  {
    assert v / 256 / 256 == v / 65536 && v / 65536 / 256 == v / 16777216;
  }

  lemma FourBytes(b: seq<byte>)
    requires |b| == 4
    ensures Value(b) == b[0] as nat + 256 * (b[1] as nat) + 65536 * (b[2] as nat) + 16777216 * (b[3] as nat)
  {
    assert Value(b[3..]) == b[3] as nat + 256 * Value(b[3..][1..]);
    assert b[2..][1..] == b[3..] && b[1..][1..] == b[2..];
    assert Value(b[2..]) == b[2] as nat + 256 * Value(b[3..]);
    assert Value(b[1..]) == b[1] as nat + 256 * Value(b[2..]);
  }

  /** Bytes are determined by their value. */
  lemma {:induction false} ValueInjective(a: seq<byte>, b: seq<byte>)
    requires |a| == |b| && Value(a) == Value(b)
    ensures a == b
  {
    if a != [] {
      assert a[0] == b[0];
      ValueInjective(a[1..], b[1..]);
    }
  }

  /** w is m on the wire: id and length in four bytes each, then the body. */
  predicate Carries(w: seq<byte>, m: Message) {
    && |w| == 8 + |m.body| && Value(w[..4]) == m.id % WORD
    && Value(w[4..8]) == |m.body| % WORD && w[8..] == m.body
  }

  /** w is the messages ms on the wire, one after the other. */
  ghost predicate CarriesAll(w: seq<byte>, ms: seq<Message>)
    decreases |ms|
  {
    if ms == [] then w == []
    else
      var n := 8 + |ms[0].body|;
      n <= |w| && Carries(w[..n], ms[0]) && CarriesAll(w[n..], ms[1..])
  }

  /** The sender's loop. */
  method SendAll(ms: seq<Message>) returns (wire: seq<byte>)
    ensures CarriesAll(wire, ms)
  {
    wire := [];
    var i := 0;
    assert ms[..0] == [];
    while i < |ms|
      invariant 0 <= i <= |ms| && CarriesAll(wire, ms[..i])
    {
      var header := new byte[8];
      PutUint32(header, 0, ms[i].id % WORD);
      ghost var id := header[..4];
      PutUint32(header, 4, |ms[i].body| % WORD);
      var message := header[..] + ms[i].body;
      assert message[..4] == header[..4] == id && message[4..8] == header[4..8] && message[8..] == ms[i].body;
      OneMore(wire, ms[..i], message, ms[i]);
      wire := wire + message;
      assert ms[..i] + [ms[i]] == ms[..i + 1];
      i := i + 1;
    }
    assert ms[..i] == ms;
  }

  lemma {:induction false} OneMore(w: seq<byte>, ms: seq<Message>, x: seq<byte>, m: Message)
    requires CarriesAll(w, ms) && Carries(x, m)
    ensures CarriesAll(w + x, ms + [m])
    decreases |ms|
  {
    if ms == [] {
      assert w + x == x && x[..|x|] == x && x[|x|..] == [] && (ms + [m])[1..] == [];
    } else {
      var n := 8 + |ms[0].body|;
      OneMore(w[n..], ms[1..], x, m);
      assert (w + x)[..n] == w[..n] && (w + x)[n..] == w[n..] + x && (ms + [m])[1..] == ms[1..] + [m];
    }
  }

  /** What the receiver makes of a byte stream: the messages it handles before the stream runs out. */
  function Decode(wire: seq<byte>): seq<Message>
    decreases |wire|
  {
    if |wire| < 8 then []
    else
      var n := 8 + Value(wire[4..8]);
      if |wire| < n then []
      else [Message(Value(wire[..4]), wire[8..n])] + Decode(wire[n..])
  }

  lemma NextMessage(rest: seq<byte>)
    ensures |rest| < 8 ==> Decode(rest) == []
    ensures |rest| >= 8 ==>
      var n := 8 + Value(rest[4..8]);
      Decode(rest) == if |rest| < n then [] else [Message(Value(rest[..4]), rest[8..n])] + Decode(rest[n..])
  {
  }

  /** The receiver's loop; io.ReadFull fails where fewer bytes are left than it is to read. */
  method ReceiveAll(wire: seq<byte>) returns (ms: seq<Message>)
    ensures ms == Decode(wire)
  {
    hide Decode, Value;
    ms := [];
    var pos := 0;
    assert wire[0..] == wire && [] + Decode(wire) == Decode(wire);
    while true
      invariant pos <= |wire| && ms + Decode(wire[pos..]) == Decode(wire)
      decreases |wire| - pos
    {
      ghost var rest := wire[pos..];
      NextMessage(rest);
      if |wire| - pos < 8 { break; }
      var header := wire[pos..pos + 8];
      var protoId, dataLen := Value(header[..4]), Value(header[4..]);
      pos := pos + 8;
      assert header[..4] == rest[..4] && header[4..] == rest[4..8];
      if |wire| - pos < dataLen { break; }
      var body := wire[pos..pos + dataLen];
      pos := pos + dataLen;
      assert body == rest[8..8 + dataLen] && wire[pos..] == rest[8 + dataLen..];
      ms := ms + [Message(protoId, body)];
    }
  }

  /** How many messages lie wholly within the first n bytes of the encodings of ms. */
  function Whole(ms: seq<Message>, n: nat): (k: nat)
    ensures k <= |ms|
  {
    if ms == [] || n < 8 + |ms[0].body| then 0 else 1 + Whole(ms[1..], n - 8 - |ms[0].body|)
  }

  /** A stream cut off after n bytes yields exactly the messages that lie wholly before the cut. */
  lemma {:induction false} TruncatedStream(wire: seq<byte>, ms: seq<Message>, n: nat)
    requires CarriesAll(wire, ms) && n <= |wire| && forall i :: 0 <= i < |ms| ==> Sendable(ms[i])
    ensures Decode(wire[..n]) == ms[..Whole(ms, n)]
    decreases |ms|
  {
    var cut := wire[..n];
    if ms == [] {
      NextMessage(cut);
    } else {
      hide Decode, Value;
      var m, len := ms[0], 8 + |ms[0].body|;
      assert Sendable(m);
      FirstMessage(wire, m, n);
      if n >= len {
        TruncatedStream(wire[len..], ms[1..], n - len);
        assert [m] + ms[1..][..Whole(ms, n) - 1] == ms[..Whole(ms, n)];
      }
    }
  }

  /** The first message of a stream that may be cut off. */
  lemma FirstMessage(wire: seq<byte>, m: Message, n: nat)
    requires Sendable(m) && 8 + |m.body| <= |wire| && Carries(wire[..8 + |m.body|], m) && n <= |wire|
    ensures var len := 8 + |m.body|;
      Decode(wire[..n]) == if n < len then [] else [m] + Decode(wire[len..][..n - len])
  {
    hide Decode, Value;
    NextMessage(wire[..n]);
    CutSlices(wire, n, 8 + |m.body|);
  }

  /** The first n bytes of w against its first len bytes. */
  lemma CutSlices(w: seq<byte>, n: nat, len: nat)
    requires 8 <= len <= |w| && n <= |w|
    ensures n >= 8 ==> w[..n][..4] == w[..len][..4] && w[..n][4..8] == w[..len][4..8]
    ensures n >= len ==> w[..n][8..len] == w[..len][8..] && w[..n][len..] == w[len..][..n - len]
  {
  }

  /** Decoding what was sent gives it back, exactly if every id and every length fits in 32 bits. */
  lemma RoundTrip(wire: seq<byte>, ms: seq<Message>)
    requires CarriesAll(wire, ms)
    ensures Decode(wire) == ms <==> forall i :: 0 <= i < |ms| ==> Sendable(ms[i])
  {
    if forall i :: 0 <= i < |ms| ==> Sendable(ms[i]) {
      TruncatedStream(wire, ms, |wire|);
      AllWhole(wire, ms);
      assert wire[..|wire|] == wire && ms[..|ms|] == ms;
    }
    if Decode(wire) == ms { OnlySendable(wire, ms); }
  }

  lemma {:induction false} OnlySendable(wire: seq<byte>, ms: seq<Message>)
    requires CarriesAll(wire, ms) && Decode(wire) == ms
    ensures forall i :: 0 <= i < |ms| ==> Sendable(ms[i])
    decreases |ms|
  {
    if ms != [] {
      var m, len := ms[0], 8 + |ms[0].body|;
      var first := wire[..len];
      assert wire[..4] == first[..4] && wire[4..8] == first[4..8];
      var n := 8 + |m.body| % WORD;
      assert Decode(wire) == [Message(m.id % WORD, wire[8..n])] + Decode(wire[n..]);
      assert m == Message(m.id % WORD, wire[8..n]);
      assert ms[1..] == Decode(wire[n..]);
      OnlySendable(wire[len..], ms[1..]);
      forall i | 0 <= i < |ms| ensures Sendable(ms[i]) {
        if i > 0 { assert ms[i] == ms[1..][i - 1]; }
      }
    }
  }

  lemma {:induction false} AllWhole(wire: seq<byte>, ms: seq<Message>)
    requires CarriesAll(wire, ms)
    ensures Whole(ms, |wire|) == |ms|
    decreases |ms|
  {
    if ms != [] { AllWhole(wire[8 + |ms[0].body|..], ms[1..]); }
  }

  /** A short message byte by byte: the id first, then the length, both least significant byte first. */
  lemma ShortMessage(w: seq<byte>, id: byte, body: seq<byte>)
    requires |body| < 256
    ensures Carries(w, Message(id as int, body)) <==> w == [id, 0, 0, 0, |body| as byte, 0, 0, 0] + body
  {
    var header: seq<byte> := [id, 0, 0, 0, |body| as byte, 0, 0, 0];
    var w' := header + body;
    FourBytes(header[..4]);
    FourBytes(header[4..]);
    assert w'[..4] == header[..4] && w'[4..8] == header[4..] && w'[8..] == body;
    if Carries(w, Message(id as int, body)) {
      ValueInjective(w[..4], header[..4]);
      ValueInjective(w[4..8], header[4..]);
      assert w == w[..4] + w[4..8] + w[8..];
    }
  }
}
