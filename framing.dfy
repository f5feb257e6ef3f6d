/** The frame codec of the gateway wire protocol: every message travels as
    `!` + serialised body + `$`, with no length prefix and no escaping.

    The body encoding (JSON) is not modelled; it is a pair of functions,
    `marshal` and `unmarshal`, handed in as a Codec. */
module Framing {
  import opened Wrappers
  import opened Protocol

  /** The leading sentinel of a frame. */
  const Opening: char := '!'
  /** The trailing sentinel of a frame, and the separator the reader splits on. */
  const Closing: char := '$'

  /** The body encoding: a serialiser and a parser that may fail. */
  datatype Codec = Codec(marshal: Message -> string, unmarshal: string -> Option<Message>)

  /** What the wire format needs of one message for it to survive a trip:
      its body parses back to it, and it holds no trailing sentinel. */
  ghost predicate RoundTrips(c: Codec, m: Message)
  {
    c.unmarshal(c.marshal(m)) == Some(m) && Closing !in c.marshal(m)
  }

  // ---------------------------------------------------------------------
  // Outbound

  /** The envelope written around a serialised body. */
  function Frame(body: string): (f: string)
    ensures |f| == |body| + 2
    ensures f[0] == Opening && f[|f| - 1] == Closing
    ensures f[1..|f| - 1] == body
  {
    [Opening] + body + [Closing]
  }

  /** The bytes written for a sequence of bodies, one frame after another. */
  function FrameAll(bodies: seq<string>): string
  {
    if bodies == [] then "" else Frame(bodies[0]) + FrameAll(bodies[1..])
  }

  /** The serialised bodies of a sequence of messages. */
  function Bodies(marshal: Message -> string, ms: seq<Message>): seq<string>
  {
    seq(|ms|, k requires 0 <= k < |ms| => marshal(ms[k]))
  }

  /** Everything written to the socket for a sequence of sent messages. */
  function Wire(marshal: Message -> string, ms: seq<Message>): string
  {
    FrameAll(Bodies(marshal, ms))
  }

  lemma {:induction false} FrameAllAppend(a: seq<string>, b: seq<string>)
    ensures FrameAll(a + b) == FrameAll(a) + FrameAll(b)
    decreases |a|
  {
    if a == [] {
      assert a + b == b;
    } else {
      assert (a + b)[1..] == a[1..] + b;
      FrameAllAppend(a[1..], b);
    }
  }

  /** Sending one more message appends exactly its frame to the wire. */
  lemma WireAppend(marshal: Message -> string, ms: seq<Message>, m: Message)
    ensures Wire(marshal, ms + [m]) == Wire(marshal, ms) + Frame(marshal(m))
  {
    assert Bodies(marshal, ms + [m]) == Bodies(marshal, ms) + [marshal(m)];
    FrameAllAppend(Bodies(marshal, ms), [marshal(m)]);
    assert FrameAll([marshal(m)]) == Frame(marshal(m)) + FrameAll([]);
  }

  // ---------------------------------------------------------------------
  // strings.Split on the trailing sentinel, and its inverse

  /** The fragments of `s` between trailing sentinels: Go's
      strings.Split(s, "$"), which yields one more fragment than there are
      sentinels (so `[""]` for the empty string). */
  function Split(s: string): (parts: seq<string>)
    ensures |parts| >= 1
    decreases |s|
  {
    if s == [] then [""]
    else if s[0] == Closing then [""] + Split(s[1..])
    else
      var rest := Split(s[1..]);
      [[s[0]] + rest[0]] + rest[1..]
  }

  /** The fragments glued back together with the sentinel between them. */
  function Join(parts: seq<string>): string
    requires |parts| >= 1
  {
    if |parts| == 1 then parts[0] else parts[0] + [Closing] + Join(parts[1..])
  }

  /** Splitting loses nothing: the fragments joined again are the input. */
  lemma {:induction false} JoinSplit(s: string)
    ensures Join(Split(s)) == s
    decreases |s|
  {
    if s == [] {
    } else if s[0] == Closing {
      JoinSplit(s[1..]);
      assert Split(s)[1..] == Split(s[1..]);
    } else {
      var rest := Split(s[1..]);
      JoinSplit(s[1..]);
      var parts := [[s[0]] + rest[0]] + rest[1..];
      assert parts[1..] == rest[1..];
      if |rest| == 1 {
        assert s == [s[0]] + s[1..];
      } else {
        assert Join(rest) == rest[0] + [Closing] + Join(rest[1..]);
        assert s == [s[0]] + s[1..];
      }
    }
  }

  /** No fragment holds the sentinel it was split on. */
  lemma {:induction false} SplitFragmentsClean(s: string)
    ensures forall k :: 0 <= k < |Split(s)| ==> Closing !in Split(s)[k]
    decreases |s|
  {
    if s == [] {
    } else if s[0] == Closing {
      SplitFragmentsClean(s[1..]);
      assert Split(s)[1..] == Split(s[1..]);
    } else {
      SplitFragmentsClean(s[1..]);
      var rest := Split(s[1..]);
      assert Split(s)[1..] == rest[1..];
      assert Split(s)[0] == [s[0]] + rest[0];
    }
  }

  /** A fragment without the sentinel is split off whole at the first sentinel. */
  lemma {:induction false} SplitAt(p: string, rest: string)
    requires Closing !in p
    ensures Split(p + [Closing] + rest) == [p] + Split(rest)
    decreases |p|
  {
    var s := p + [Closing] + rest;
    if p == [] {
      assert s[1..] == rest;
    } else {
      assert s[1..] == p[1..] + [Closing] + rest;
      SplitAt(p[1..], rest);
      assert [p[0]] + p[1..] == p;
    }
  }

  /** A string without the sentinel is a single fragment. */
  lemma {:induction false} SplitWhole(p: string)
    requires Closing !in p
    ensures Split(p) == [p]
    decreases |p|
  {
    if p != [] {
      SplitWhole(p[1..]);
      assert [p[0]] + p[1..] == p;
    }
  }

  /** Joining clean fragments and splitting again gives the same fragments. */
  lemma {:induction false} SplitJoin(parts: seq<string>)
    requires |parts| >= 1
    requires forall k :: 0 <= k < |parts| ==> Closing !in parts[k]
    ensures Split(Join(parts)) == parts
    decreases |parts|
  {
    if |parts| == 1 {
      SplitWhole(parts[0]);
    } else {
      SplitJoin(parts[1..]);
      SplitAt(parts[0], Join(parts[1..]));
    }
  }

  // ---------------------------------------------------------------------
  // Inbound

  /** What one fragment contributes: a fragment is a candidate only if it
      starts with the leading sentinel; that one sentinel is stripped and
      the remainder handed to the parser. */
  function DecodeFragment(part: string, unmarshal: string -> Option<Message>): (m: Option<Message>)
    ensures m.Some? ==> |part| >= 1 && part[0] == Opening
    ensures |part| >= 1 && part[0] == Opening ==> m == unmarshal(part[1..])
  {
    if |part| >= 1 && part[0] == Opening then unmarshal(part[1..]) else None
  }

  /** A parse result as zero or one messages. */
  function Present(o: Option<Message>): seq<Message>
  {
    if o.Some? then [o.value] else []
  }

  /** The messages of a sequence of fragments, in fragment order. */
  function DecodeAll(parts: seq<string>, unmarshal: string -> Option<Message>): seq<Message>
  {
    if parts == [] then []
    else Present(DecodeFragment(parts[0], unmarshal)) + DecodeAll(parts[1..], unmarshal)
  }

  /** The messages parseMessages extracts from one read buffer. */
  function Parse(buffer: string, unmarshal: string -> Option<Message>): seq<Message>
  {
    DecodeAll(Split(buffer), unmarshal)
  }

  /** The reference for what a stream of framed bodies should decode to:
      the bodies that parse, in order, and nothing for the ones that do not. */
  function DecodeBodies(bodies: seq<string>, unmarshal: string -> Option<Message>): seq<Message>
  {
    if bodies == [] then [] else Present(unmarshal(bodies[0])) + DecodeBodies(bodies[1..], unmarshal)
  }

  lemma {:induction false} DecodeAllAppend(a: seq<string>, b: seq<string>, unmarshal: string -> Option<Message>)
    ensures DecodeAll(a + b, unmarshal) == DecodeAll(a, unmarshal) + DecodeAll(b, unmarshal)
    decreases |a|
  {
    if a == [] {
      assert a + b == b;
    } else {
      assert (a + b)[1..] == a[1..] + b;
      DecodeAllAppend(a[1..], b, unmarshal);
    }
  }

  /** parseMessages: split the buffer on the trailing sentinel and keep, in
      order, each fragment that starts with the leading sentinel and whose
      remainder parses. */
  method ParseMessages(buffer: string, unmarshal: string -> Option<Message>) returns (messages: seq<Message>)
    ensures messages == Parse(buffer, unmarshal)
  {
    messages := [];
    var parts := Split(buffer);
    var i := 0;
    while i < |parts|
      invariant 0 <= i <= |parts|
      invariant messages == DecodeAll(parts[..i], unmarshal)
    {
      var part := parts[i];
      if |part| >= 1 && part[0] == Opening {
        var parsed := unmarshal(part[1..]);
        if parsed.Some? {
          messages := messages + [parsed.value];
        }
      }
      assert parts[..i + 1] == parts[..i] + [part];
      DecodeAllAppend(parts[..i], [part], unmarshal);
      i := i + 1;
    }
    assert parts[..i] == parts;
  }

  /** The first fragment of a buffer is decoded on its own, ahead of the rest. */
  lemma ParseCons(x: string, rest: string, unmarshal: string -> Option<Message>)
    requires Closing !in x
    ensures Parse(x + [Closing] + rest, unmarshal) == Present(DecodeFragment(x, unmarshal)) + Parse(rest, unmarshal)
  {
    SplitAt(x, rest);
  }

  /** The empty buffer, and so the empty fragment after the last trailing
      sentinel, contributes nothing. */
  lemma ParseEmpty(unmarshal: string -> Option<Message>)
    ensures Parse("", unmarshal) == []
  {
  }

  /** A fragment that does not start with the leading sentinel is dropped. */
  lemma UnopenedFragmentDropped(x: string, rest: string, unmarshal: string -> Option<Message>)
    requires Closing !in x
    requires x == [] || x[0] != Opening
    ensures Parse(x + [Closing] + rest, unmarshal) == Parse(rest, unmarshal)
  {
    ParseCons(x, rest, unmarshal);
  }

  /** A frame whose body does not parse is dropped, and the stream goes on. */
  lemma MalformedFrameDropped(body: string, rest: string, unmarshal: string -> Option<Message>)
    requires Closing !in body
    requires unmarshal(body) == None
    ensures Parse(Frame(body) + rest, unmarshal) == Parse(rest, unmarshal)
  {
    assert Frame(body) + rest == ([Opening] + body) + [Closing] + rest;
    ParseCons([Opening] + body, rest, unmarshal);
    assert ([Opening] + body)[1..] == body;
  }

  /** A frame in front of a buffer contributes exactly its parsed body. */
  lemma FrameThenRest(body: string, rest: string, unmarshal: string -> Option<Message>)
    requires Closing !in body
    ensures Parse(Frame(body) + rest, unmarshal) == Present(unmarshal(body)) + Parse(rest, unmarshal)
  {
    assert Frame(body) + rest == ([Opening] + body) + [Closing] + rest;
    ParseCons([Opening] + body, rest, unmarshal);
    assert ([Opening] + body)[1..] == body;
  }

  /** Reading a stream one `$`-terminated piece at a time, as the read
      loop does, yields the same messages as parsing it whole. */
  lemma PieceByPiece(x: string, rest: string, unmarshal: string -> Option<Message>)
    requires Closing !in x
    ensures Parse(x + [Closing], unmarshal) + Parse(rest, unmarshal)
         == Parse(x + [Closing] + rest, unmarshal)
    ensures |Parse(x + [Closing], unmarshal)| <= 1
  {
    var piece := x + [Closing];
    assert piece + "" == piece;
    ParseCons(x, "", unmarshal);
    ParseEmpty(unmarshal);
    assert Parse(piece, unmarshal) == Present(DecodeFragment(x, unmarshal));
    ParseCons(x, rest, unmarshal);
  }

  /** Several frames read in one chunk all decode from that chunk, in order:
      for bodies without the sentinel, parsing `!b1$!b2$...` gives exactly
      the bodies that parse. */
  lemma {:induction false} ParseFramedBodies(bodies: seq<string>, unmarshal: string -> Option<Message>)
    requires forall k :: 0 <= k < |bodies| ==> Closing !in bodies[k]
    ensures Parse(FrameAll(bodies), unmarshal) == DecodeBodies(bodies, unmarshal)
    decreases |bodies|
  {
    if bodies == [] {
      ParseEmpty(unmarshal);
    } else {
      FrameThenRest(bodies[0], FrameAll(bodies[1..]), unmarshal);
      ParseFramedBodies(bodies[1..], unmarshal);
    }
  }

  lemma {:induction false} DecodeMarshalled(c: Codec, ms: seq<Message>)
    requires forall k :: 0 <= k < |ms| ==> RoundTrips(c, ms[k])
    ensures DecodeBodies(Bodies(c.marshal, ms), c.unmarshal) == ms
    decreases |ms|
  {
    if ms != [] {
      assert Bodies(c.marshal, ms)[1..] == Bodies(c.marshal, ms[1..]);
      assert RoundTrips(c, ms[0]);
      DecodeMarshalled(c, ms[1..]);
    }
  }

  /** Round trip: whatever the bridge writes decodes, with the same
      parser, to exactly the messages it sent, in order, provided each
      message survives the body encoding. */
  lemma WireRoundTrip(c: Codec, ms: seq<Message>)
    requires forall k :: 0 <= k < |ms| ==> RoundTrips(c, ms[k])
    ensures Parse(Wire(c.marshal, ms), c.unmarshal) == ms
  {
    var bodies := Bodies(c.marshal, ms);
    assert forall k :: 0 <= k < |bodies| ==> Closing !in bodies[k] by {
      forall k | 0 <= k < |bodies| ensures Closing !in bodies[k] {
        assert RoundTrips(c, ms[k]);
      }
    }
    ParseFramedBodies(bodies, c.unmarshal);
    DecodeMarshalled(c, ms);
  }

  /** The unescaped-sentinel risk of the wire format: a body holding `$`
      is never handed to the parser whole; the reader sees two fragments. */
  lemma SentinelInBodySplitsFrame(x: string, y: string, unmarshal: string -> Option<Message>)
    requires Closing !in x && Closing !in y
    ensures Parse(Frame(x + [Closing] + y), unmarshal)
         == Present(unmarshal(x)) + Present(DecodeFragment(y, unmarshal))
  {
    var head := [Opening] + x;
    assert Frame(x + [Closing] + y) == head + [Closing] + (y + [Closing] + "");
    ParseCons(head, y + [Closing] + "", unmarshal);
    assert head[1..] == x;
    ParseCons(y, "", unmarshal);
    ParseEmpty(unmarshal);
  }
}
