/** The frame reader of test/new_test.go: a sliding window over a byte stream. */
module Frames {
  newtype byte = x: int | 0 <= x < 256

  const MAX_BUFFER_SIZE: nat := 8192
  const HEADER_LEN: nat := 6

  /** What the callback gets; `code` is the fifth header byte as an int16. */
  datatype Frame = Frame(code: int, header: seq<byte>, body: seq<byte>)

  function Size(f: Frame): nat {
    |f.header| + |f.body|
  }

  function Bytes(fs: seq<Frame>): seq<byte> {
    if fs == [] then [] else fs[0].header + fs[0].body + Bytes(fs[1..])
  }

  /** The last header byte is the length of the body, the one before it the code. */
  predicate WellFormed(f: Frame) {
    |f.header| == HEADER_LEN && |f.body| == f.header[5] as nat && f.code == f.header[4] as int
  }

  /** b does not start with a whole frame. */
  predicate Incomplete(b: seq<byte>) {
    |b| < HEADER_LEN || |b| - HEADER_LEN < b[5] as nat
  }

  function FirstFrame(b: seq<byte>): (f: Frame)
    requires !Incomplete(b)
  {
    Frame(b[4] as int, b[..6], b[6..6 + b[5] as nat])
  }

  /** All bytes parsed at once: the whole frames, and the bytes left over. */
  function Parse(b: seq<byte>): (seq<Frame>, seq<byte>)
    decreases |b|
  {
    if Incomplete(b) then ([], b)
    else
      var f := FirstFrame(b);
      var (fs, rest) := Parse(b[Size(f)..]);
      ([f] + fs, rest)
  }

  lemma ParseFirst(b: seq<byte>)
    requires !Incomplete(b)
    ensures var f := FirstFrame(b);
      Size(f) <= |b| && Parse(b) == ([f] + Parse(b[Size(f)..]).0, Parse(b[Size(f)..]).1)
  {
  }

  lemma FrameFirst(b: seq<byte>)
    requires !Incomplete(b)
    ensures var f := FirstFrame(b); 0 < Size(f) <= |b| && WellFormed(f) && b == f.header + f.body + b[Size(f)..]
  {
    var n := 6 + b[5] as nat;
    assert b == b[..6] + b[6..n] + b[n..];
  }

  lemma OneMoreFrame(f: Frame, fs: seq<Frame>, rest: seq<byte>)
    ensures Bytes([f] + fs) + rest == f.header + f.body + (Bytes(fs) + rest)
  {
    assert ([f] + fs)[1..] == fs;
  }

  /** A whole frame is the first one whatever comes behind it. */
  lemma FrameAhead(a: seq<byte>, b: seq<byte>)
    requires !Incomplete(a)
    ensures !Incomplete(a + b) && FirstFrame(a + b) == FirstFrame(a)
    ensures var f := FirstFrame(a);
      0 < Size(f) <= |a| && (a + b)[Size(f)..] == a[Size(f)..] + b
  {
    var n := 6 + a[5] as nat;
    assert (a + b)[..6] == a[..6] && (a + b)[6..n] == a[6..n];
  }

  /** Parsing is the one way to cut b into frames and an incomplete rest. */
  lemma {:induction false} ParseUnique(b: seq<byte>, fs: seq<Frame>, rest: seq<byte>)
    ensures Parse(b) == (fs, rest) <==>
      Bytes(fs) + rest == b && Incomplete(rest) && forall i :: 0 <= i < |fs| ==> WellFormed(fs[i])
    decreases |b|
  {
    ParseCuts(b);
    if Bytes(fs) + rest == b && Incomplete(rest) && forall i :: 0 <= i < |fs| ==> WellFormed(fs[i]) {
      CutParses(fs, rest);
    }
  }

  lemma {:induction false} ParseCuts(b: seq<byte>)
    ensures var (fs, rest) := Parse(b);
      Bytes(fs) + rest == b && Incomplete(rest) && forall i :: 0 <= i < |fs| ==> WellFormed(fs[i])
    decreases |b|
  {
    if !Incomplete(b) {
      hide Parse, FirstFrame, WellFormed, Incomplete;
      FrameFirst(b);
      ParseFirst(b);
      var f := FirstFrame(b);
      var later := b[Size(f)..];
      ParseCuts(later);
      var (fs, rest) := Parse(later);
      OneMoreFrame(f, fs, rest);
    }
  }

  lemma {:induction false} CutParses(fs: seq<Frame>, rest: seq<byte>)
    requires Incomplete(rest) && forall i :: 0 <= i < |fs| ==> WellFormed(fs[i])
    ensures Parse(Bytes(fs) + rest) == (fs, rest)
  {
    var b := Bytes(fs) + rest;
    if fs == [] {
      assert b == rest;
    } else {
      var f := fs[0];
      CutParses(fs[1..], rest);
      assert WellFormed(f) && b == f.header + f.body + (Bytes(fs[1..]) + rest);
      assert b[..6] == f.header && b[6..Size(f)] == f.body && b[Size(f)..] == Bytes(fs[1..]) + rest;
      assert [f] + fs[1..] == fs;
    }
  }

  /** Parsing may be interrupted anywhere: what is left over goes before what comes next. */
  lemma {:induction false} ParseInParts(a: seq<byte>, b: seq<byte>)
    ensures Parse(a + b).0 == Parse(a).0 + Parse(Parse(a).1 + b).0
    ensures Parse(a + b).1 == Parse(Parse(a).1 + b).1
    decreases |a|
  {
    if Incomplete(a) {
      assert [] + Parse(a + b).0 == Parse(a + b).0;
    } else {
      hide Parse, FirstFrame, WellFormed, Incomplete;
      FrameAhead(a, b);
      ParseFirst(a);
      ParseFirst(a + b);
      var f := FirstFrame(a);
      var a' := a[Size(f)..];
      ParseInParts(a', b);
      hide Size;
      assert [f] + (Parse(a').0 + Parse(Parse(a').1 + b).0) == [f] + Parse(a').0 + Parse(Parse(a').1 + b).0;
    }
  }

  /** Fewer than 261 bytes are ever left over. */
  lemma {:induction false} LeftoverSmall(b: seq<byte>)
    ensures |Parse(b).1| < HEADER_LEN + 255
  {
    ParseCuts(b);
  }

  /** What GetData cuts off the window is its first frame. */
  lemma FrameCut(window: seq<byte>, header: seq<byte>, body: seq<byte>)
    requires |window| >= HEADER_LEN && header == window[..HEADER_LEN] && |window| - HEADER_LEN >= header[5] as nat
    requires body == window[HEADER_LEN..HEADER_LEN + header[5] as nat]
    ensures var later := Parse(window[HEADER_LEN + header[5] as nat..]);
      Parse(window) == ([Frame(header[4] as int, header, body)] + later.0, later.1)
  {
    assert !Incomplete(window) && FirstFrame(window) == Frame(header[4] as int, header, body);
    hide Parse;
    ParseFirst(window);
  }

  lemma NoFrame(window: seq<byte>)
    ensures Incomplete(window) ==> Parse(window) == ([], window)
  {
  }

  lemma Slice(s: seq<byte>, a: nat, b: nat, c: nat, d: nat)
    requires a <= b <= |s| && c <= d <= b - a
    ensures s[a..b][c..d] == s[a + c..a + d]
  {
    assert forall k :: 0 <= k < d - c ==> s[a..b][c..d][k] == s[a + c..a + d][k];
  }

  lemma Onward(s: seq<byte>, pos: nat, upto: nat, n: nat)
    requires pos <= upto <= |s| && n <= upto - pos
    ensures s[..pos] + s[pos..upto][..n] == s[..pos + n]
  {
  }

  class Reader {
    const Buff: array<byte>
    var Start: nat
    var End: nat
    const BuffLen: nat

    /** The frames dispatched so far, in order. */
    var dispatched: seq<Frame>

    /** All bytes read so far. */
    ghost var received: seq<byte>

    /** The unread window lies in the buffer. */
    ghost predicate InBounds()
      reads this
    {
      Start <= End <= BuffLen == Buff.Length == MAX_BUFFER_SIZE
    }

    ghost function Window(): seq<byte>
      reads this, Buff
      requires InBounds()
    {
      Buff[Start..End]
    }

    /** Dispatched is what a parse of all bytes gives, and the window is what that leaves over. */
    ghost predicate Valid()
      reads this, Buff
    {
      InBounds() && Parse(received) == (dispatched, Window())
    }

    constructor ()
      ensures Valid() && fresh(Buff) && received == [] && dispatched == []
    {
      Buff := new byte[MAX_BUFFER_SIZE];
      Start, End, BuffLen := 0, 0, MAX_BUFFER_SIZE;
      dispatched, received := [], [];
    }

    /** Moves the window to the front of the buffer, where it may overlap its old place. */
    method Move()
      requires InBounds()
      modifies this`Start, this`End, Buff
      ensures InBounds() && Start == 0 && Window() == old(Window())
    {
      if Start == 0 { return; }
      forall k | 0 <= k < End - Start { Buff[k] := Buff[Start + k]; }
      End := End - Start;
      Start := 0;
    }

    /** Dispatches every whole frame of the window. */
    method GetData()
      requires InBounds()
      modifies this`Start, this`dispatched
      ensures InBounds() && End - Start < HEADER_LEN + 255
      ensures dispatched == old(dispatched) + Parse(old(Window())).0 && Window() == Parse(old(Window())).1
      decreases End - Start
    {
      hide Parse;
      ghost var window, all := Window(), Buff[..];
      assert window == all[Start..End];
      LeftoverSmall(window);
      NoFrame(window);
      if End - Start < HEADER_LEN {
        return;
      }
      var headerData := Buff[Start..Start + HEADER_LEN];
      var contentLen := headerData[HEADER_LEN - 1] as nat;
      var code := headerData[HEADER_LEN - 2] as int;
      Slice(all, Start, End, 0, HEADER_LEN);
      assert headerData == window[..HEADER_LEN];
      if End - Start - HEADER_LEN < contentLen {
        return;
      }
      var start := Start + HEADER_LEN;
      var bodyData := Buff[start..start + contentLen];
      Slice(all, Start, End, HEADER_LEN, HEADER_LEN + contentLen);
      FrameCut(window, headerData, bodyData);
      dispatched := dispatched + [Frame(code, headerData, bodyData)];
      Start := Start + HEADER_LEN + contentLen;
      Slice(all, old(Start), End, HEADER_LEN + contentLen, End - old(Start));
      assert Window() == window[HEADER_LEN + contentLen..];
      GetData();
    }

    /** One turn of Read: the bytes `chunk` arrive, as many as there is room for. */
    method Receive(chunk: seq<byte>) returns (tooLarge: bool, n: nat)
      requires Valid()
      modifies this, Buff
      ensures Valid() && !tooLarge && n <= |chunk| && (n == 0 ==> chunk == [])
      ensures received == old(received) + chunk[..n]
    {
      Move();
      LeftoverSmall(received);
      tooLarge, n := End == BuffLen, 0;
      if tooLarge { return; }
      n := if |chunk| <= BuffLen - End then |chunk| else BuffLen - End;
      ghost var window := Window();
      Fill(chunk[..n]);
      End := End + n;
      received := received + chunk[..n];
      assert Window() == window + chunk[..n];
      GetData();
      ParseInParts(old(received), chunk[..n]);
    }

    /** Conn.Read: bytes go into the buffer behind the window. */
    method Fill(bytes: seq<byte>)
      requires InBounds() && |bytes| <= BuffLen - End
      modifies Buff
      ensures Buff[..End] == old(Buff[..End]) && Buff[End..End + |bytes|] == bytes
    {
      forall k | 0 <= k < |bytes| { Buff[End + k] := bytes[k]; }
    }

    /**
      Read, until `stream` has been read, however it is cut into chunks: chunk sizes are what the
      connection happens to deliver, at least one byte at a time. The frames dispatched are those of
      a parse of all bytes at once.
    */
    method Read(stream: seq<byte>, sizes: seq<nat>) returns (tooLarge: bool)
      requires Valid() && |sizes| >= |stream| && forall i :: 0 <= i < |sizes| ==> sizes[i] > 0
      modifies this, Buff
      ensures Valid() && !tooLarge && received == old(received) + stream
      ensures dispatched == Parse(old(received) + stream).0
    {
      hide Parse;
      var pos, turn := 0, 0;
      while pos < |stream|
        invariant Valid() && turn <= pos <= |stream|
        invariant received == old(received) + stream[..pos]
      {
        var upto := if sizes[turn] <= |stream| - pos then pos + sizes[turn] else |stream|;
        var large, n := Receive(stream[pos..upto]);
        if large { return true; }
        Onward(stream, pos, upto, n);
        assert received == old(received) + (stream[..pos] + stream[pos..upto][..n]);
        pos, turn := pos + n, turn + 1;
      }
      tooLarge := false;
    }
  }
}
