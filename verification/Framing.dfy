/** How a switch connection cuts the bytes it receives into OpenFlow messages. */
module Framing {
  import opened Wrappers

  const OFP_VERSION: Byte := 1

  // The table of unpackers: which types it covers, and what unpacking the start of a buffer
  // returns, the offset reached and the message, or None when it raises.
  datatype Codec<M> = Codec(known: Byte -> bool, unpack: (Byte, Bytes) -> Option<(int, M)>)

  datatype Reply = HelloFailed | BadType(data: Bytes) | BadLen(data: Bytes)

  // Why read stops: it waits for more bytes, the head of the buffer has the wrong version, the
  // unpacker raised, or it repeats one iteration for ever.
  datatype Outcome = Waiting | BadVersion | Raised | Spinning

  datatype Drained<M> = Drained(msgs: seq<M>, replies: seq<Reply>, rest: Bytes, outcome: Outcome)

  function Length(buf: Bytes): nat
    requires |buf| >= 4
  {
    buf[2] as int * 256 + buf[3] as int
  }

  predicate Complete(buf: Bytes) {
    |buf| >= 4 && buf[0] == OFP_VERSION && Length(buf) <= |buf|
  }

  // One iteration of read: it stops, or consumes n bytes.
  datatype Head<M> = Stop(outcome: Outcome) | Skip(n: nat, reply: Reply) | Take(n: nat, msg: M)

  function Next<M>(c: Codec<M>, buf: Bytes): (h: Head<M>)
    ensures !h.Stop? ==> Complete(buf) && 0 < h.n == Length(buf)
  {
    if |buf| < 4 then Stop(Waiting)
    else if buf[0] != OFP_VERSION then Stop(BadVersion)
    else if Length(buf) > |buf| then Stop(Waiting)
    else
      var n := Length(buf);
      if !c.known(buf[1]) then
        if n == 0 then Stop(Spinning) else Skip(n, BadType(buf[..n]))
      else
        match c.unpack(buf[1], buf)
        case None => Stop(Raised)
        case Some(u) =>
          if n == 0 then Stop(Spinning)
          else if u.0 != n then Skip(n, BadLen(buf[..n]))
          else Take(n, u.1)
  }

  // What one call of read makes of a buffer.
  function Drain<M>(c: Codec<M>, buf: Bytes): Drained<M>
    decreases |buf|
  {
    match Next(c, buf)
    case Stop(outcome) => Drained([], [], buf, outcome)
    case Skip(n, reply) => Before([], [reply], Drain(c, buf[n..]))
    case Take(n, msg) => Before([msg], [], Drain(c, buf[n..]))
  }

  function Before<M>(msgs: seq<M>, replies: seq<Reply>, d: Drained<M>): Drained<M> {
    d.(msgs := msgs + d.msgs, replies := replies + d.replies)
  }

  lemma DrainNext<M>(c: Codec<M>, msgs: seq<M>, replies: seq<Reply>, buf: Bytes)
    ensures var whole, h := Before(msgs, replies, Drain(c, buf)), Next(c, buf);
      if h.Stop? then whole == Drained(msgs, replies, buf, h.outcome)
      else if h.Skip? then whole == Before(msgs, replies + [h.reply], Drain(c, buf[h.n..]))
      else whole == Before(msgs + [h.msg], replies, Drain(c, buf[h.n..]))
  {
    match Next(c, buf)
    case Stop(outcome) =>
    case Skip(n, reply) =>
      var d := Drain(c, buf[n..]);
      assert replies + ([reply] + d.replies) == replies + [reply] + d.replies;
      assert [] + d.msgs == d.msgs;
    case Take(n, msg) =>
      var d := Drain(c, buf[n..]);
      assert msgs + ([msg] + d.msgs) == msgs + [msg] + d.msgs;
      assert [] + d.replies == d.replies;
  }

  class OFConnection<M> {
    const codec: Codec<M>
    var receiveBuf: Bytes
    var starting: bool
    // what the message handler was called with, and the error replies sent
    var handled: seq<M>
    var replies: seq<Reply>

    constructor (codec: Codec<M>)
      ensures this.codec == codec && receiveBuf == [] && starting && handled == [] && replies == []
    {
      this.codec := codec;
      receiveBuf := [];
      starting := true;
      handled := [];
      replies := [];
    }

    method Read() returns (outcome: Outcome)
      modifies this
      ensures var d := Drain(codec, old(receiveBuf));
        && outcome == d.outcome && receiveBuf == d.rest
        && handled == old(handled) + d.msgs
        && starting == (old(starting) && d.msgs == [])
        && replies == old(replies) + d.replies + if d.outcome == BadVersion && starting then [HelloFailed] else []
    {
      hide Drain, Before;
      ghost var msgs: seq<M>, errors: seq<Reply> := [], [];
      BeforeNothing(Drain(codec, receiveBuf));
      while true
        invariant Drain(codec, old(receiveBuf)) == Before(msgs, errors, Drain(codec, receiveBuf))
        invariant handled == old(handled) + msgs && replies == old(replies) + errors
        invariant starting == (old(starting) && msgs == [])
        decreases |receiveBuf|
      {
        var message := receiveBuf;
        DrainNext(codec, msgs, errors, message);
        if |message| < 4 {
          return Waiting;
        }
        if message[0] != OFP_VERSION {
          if starting {
            replies := replies + [HelloFailed];
          }
          return BadVersion;
        }
        var length := Length(message);
        if length > |message| {
          return Waiting;
        }
        if !codec.known(message[1]) {
          if length == 0 {
            return Spinning;
          }
          replies := replies + [BadType(message[..length])];
          receiveBuf := message[length..];
          errors := errors + [BadType(message[..length])];
        } else {
          var unpacked := codec.unpack(message[1], message);
          if unpacked.None? {
            return Raised;
          }
          if length == 0 {
            return Spinning;
          }
          receiveBuf := message[length..];
          if unpacked.value.0 != length {
            replies := replies + [BadLen(message[..length])];
            errors := errors + [BadLen(message[..length])];
          } else {
            starting := false;
            handled := handled + [unpacked.value.1];
            msgs := msgs + [unpacked.value.1];
          }
        }
      }
    }

    // The worker appends what arrives and has it read.
    method PushReceiveData(data: Bytes) returns (outcome: Outcome)
      modifies this
      ensures var d := Drain(codec, old(receiveBuf) + data);
        && outcome == d.outcome && receiveBuf == d.rest && handled == old(handled) + d.msgs
    {
      receiveBuf := receiveBuf + data;
      outcome := Read();
    }
  }

  // ---- chunks ----

  function Flat(chunks: seq<Bytes>): Bytes {
    if chunks == [] then [] else Flat(chunks[..|chunks| - 1]) + chunks[|chunks| - 1]
  }

  // The calls of read for bytes that arrive in chunks.
  function Feed<M>(c: Codec<M>, chunks: seq<Bytes>): Drained<M> {
    if chunks == [] then Drained([], [], [], Waiting)
    else
      var d := Feed(c, chunks[..|chunks| - 1]);
      Before(d.msgs, d.replies, Drain(c, d.rest + chunks[|chunks| - 1]))
  }

  // On this stream the unpackers look at nothing past the end of the frame they are given.
  ghost predicate Local<M>(c: Codec<M>, buf: Bytes)
    decreases |buf|
  {
    Complete(buf) ==>
      var n := Length(buf);
      && (c.known(buf[1]) ==> forall k :: n <= k <= |buf| && 4 <= k ==>
            c.unpack(buf[1], buf[..k]) == c.unpack(buf[1], buf))
      && (n > 0 ==> Local(c, buf[n..]))
  }

  lemma {:induction false} LocalPrefix<M>(c: Codec<M>, buf: Bytes, more: Bytes)
    requires Local(c, buf + more)
    ensures Local(c, buf)
    decreases |buf|
  {
    if Complete(buf) {
      var n, longer := Length(buf), buf + more;
      assert Length(longer) == n;
      if c.known(buf[1]) {
        forall k | n <= k <= |buf| && 4 <= k
          ensures c.unpack(buf[1], buf[..k]) == c.unpack(buf[1], buf)
        {
          assert longer[..k] == buf[..k] && longer[..|buf|] == buf;
        }
      }
      if n > 0 {
        assert longer[n..] == buf[n..] + more;
        LocalPrefix(c, buf[n..], more);
      }
    }
  }

  // More bytes change what read does first only if it was waiting for them.
  lemma NextIsStable<M>(c: Codec<M>, buf: Bytes, more: Bytes)
    requires Local(c, buf + more)
    ensures Next(c, buf) == Stop(Waiting) || Next(c, buf + more) == Next(c, buf)
  {
    if Complete(buf) {
      var n, longer := Length(buf), buf + more;
      assert Length(longer) == n && longer[..|buf|] == buf && longer[..n] == buf[..n];
    }
  }

  // Reading in two goes what could have been read in one.
  lemma {:induction false} DrainInTwo<M>(c: Codec<M>, buf: Bytes, more: Bytes)
    requires Local(c, buf + more)
    ensures var d := Drain(c, buf);
      Drain(c, buf + more) == Before(d.msgs, d.replies, Drain(c, d.rest + more))
    decreases |buf|
  {
    hide Next, Local, Before;
    NextIsStable(c, buf, more);
    var h := Next(c, buf);
    if h.Stop? {
      BeforeNothing(Drain(c, buf + more));
    } else {
      var left := buf[h.n..];
      assert (buf + more)[h.n..] == left + more;
      LocalRest(c, buf, more);
      DrainInTwo(c, left, more);
      var d := Drain(c, left);
      if h.Skip? {
        InOrder([], [h.reply], d, Drain(c, d.rest + more));
      } else {
        InOrder([h.msg], [], d, Drain(c, d.rest + more));
      }
    }
  }

  lemma BeforeNothing<M>(d: Drained<M>)
    ensures Before([], [], d) == d
  {
  }

  lemma InOrder<M>(msgs: seq<M>, replies: seq<Reply>, d: Drained<M>, e: Drained<M>)
    ensures var both := Before(msgs, replies, d);
      both.rest == d.rest && Before(msgs, replies, Before(d.msgs, d.replies, e)) == Before(both.msgs, both.replies, e)
  {
    assert msgs + (d.msgs + e.msgs) == msgs + d.msgs + e.msgs;
    assert replies + (d.replies + e.replies) == replies + d.replies + e.replies;
  }

  lemma LocalRest<M>(c: Codec<M>, buf: Bytes, more: Bytes)
    requires Local(c, buf + more) && Complete(buf) && Length(buf) > 0
    ensures Local(c, buf[Length(buf)..] + more)
  {
    assert (buf + more)[Length(buf)..] == buf[Length(buf)..] + more;
  }

  lemma {:induction false} FeedIsDrain<M>(c: Codec<M>, chunks: seq<Bytes>)
    requires Local(c, Flat(chunks))
    ensures Feed(c, chunks) == Drain(c, Flat(chunks))
  {
    if chunks != [] {
      var n := |chunks| - 1;
      LocalPrefix(c, Flat(chunks[..n]), chunks[n]);
      FeedIsDrain(c, chunks[..n]);
      DrainInTwo(c, Flat(chunks[..n]), chunks[n]);
    }
  }

  // ---- well-formed streams ----

  // What a whole frame is to the reader: a message, one of no known type, or one whose unpacker
  // stops at another offset than its length.
  datatype Kind<M> = Good(msg: M) | Unknown | Misfit

  // The frame carries its own length, and unpacks the same whatever follows it.
  ghost predicate IsFrame<M(!new)>(c: Codec<M>, f: Bytes, kind: Kind<M>) {
    && 4 <= |f| && f[0] == 1 && f[2] as int * 256 + f[3] as int == |f|
    && (c.known(f[1]) <==> !kind.Unknown?)
    && (kind.Good? ==> forall tail :: c.unpack(f[1], f + tail) == Some((|f|, kind.msg)))
    && (kind.Misfit? ==> exists n, m :: n != |f| && forall tail :: c.unpack(f[1], f + tail) == Some((n, m)))
  }

  predicate Partial(buf: Bytes) {
    |buf| < 4 || (buf[0] == OFP_VERSION && Length(buf) > |buf|)
  }

  // Where read stops for want of bytes, or because another version starts here.
  predicate Halts(buf: Bytes, outcome: Outcome) {
    if |buf| >= 4 && buf[0] != 1 then outcome == BadVersion else Partial(buf) && outcome == Waiting
  }

  ghost predicate AreFrames<M(!new)>(c: Codec<M>, frames: seq<Bytes>, kinds: seq<Kind<M>>) {
    |frames| == |kinds| && forall i :: 0 <= i < |frames| ==> IsFrame(c, frames[i], kinds[i])
  }

  function Handled<M>(kind: Kind<M>): seq<M> {
    if kind.Good? then [kind.msg] else []
  }

  // An error reply carries the whole frame.
  function Answer<M>(f: Bytes, kind: Kind<M>): seq<Reply> {
    match kind
    case Good(_) => []
    case Unknown => [BadType(f)]
    case Misfit => [BadLen(f)]
  }

  function MessagesOf<M>(kinds: seq<Kind<M>>): seq<M> {
    if kinds == [] then [] else Handled(kinds[0]) + MessagesOf(kinds[1..])
  }

  function RepliesTo<M>(frames: seq<Bytes>, kinds: seq<Kind<M>>): seq<Reply>
    requires |frames| == |kinds|
  {
    if kinds == [] then [] else Answer(frames[0], kinds[0]) + RepliesTo(frames[1..], kinds[1..])
  }

  lemma {:induction false} FlatHead(chunks: seq<Bytes>)
    requires chunks != []
    ensures Flat(chunks) == chunks[0] + Flat(chunks[1..])
  {
    if |chunks| > 1 {
      var n := |chunks| - 1;
      FlatHead(chunks[..n]);
      assert chunks[..n][1..] == chunks[1..][..n - 1];
    }
  }

  lemma {:induction false} DrainFrames<M(!new)>(c: Codec<M>, frames: seq<Bytes>, kinds: seq<Kind<M>>,
                                                rest: Bytes, outcome: Outcome)
    requires AreFrames(c, frames, kinds) && Halts(rest, outcome)
    ensures Local(c, Flat(frames) + rest)
    ensures Drain(c, Flat(frames) + rest) == Drained(MessagesOf(kinds), RepliesTo(frames, kinds), rest, outcome)
  {
    hide IsFrame, Next, Local, Drain, Halts, Handled, Answer;
    if frames == [] {
      assert Flat(frames) + rest == rest;
      DrainRest(c, rest, outcome);
    } else {
      var f, more := frames[0], Flat(frames[1..]) + rest;
      DrainFrames(c, frames[1..], kinds[1..], rest, outcome);
      FlatHead(frames);
      assert Flat(frames) + rest == f + more;
      DrainFrame(c, f, kinds[0], more);
    }
  }

  lemma DrainRest<M>(c: Codec<M>, rest: Bytes, outcome: Outcome)
    requires Halts(rest, outcome)
    ensures Local(c, rest) && Drain(c, rest) == Drained([], [], rest, outcome)
  {
  }

  lemma DrainFrame<M(!new)>(c: Codec<M>, f: Bytes, kind: Kind<M>, rest: Bytes)
    requires IsFrame(c, f, kind) && Local(c, rest)
    ensures Local(c, f + rest)
    ensures Drain(c, f + rest) == Before(Handled(kind), Answer(f, kind), Drain(c, rest))
  {
    var buf, n := f + rest, |f|;
    assert Length(buf) == n && buf[n..] == rest && buf[..n] == f;
    if !kind.Unknown? {
      forall k | n <= k <= |buf|
        ensures c.unpack(buf[1], buf[..k]) == c.unpack(f[1], f + [])
      {
        assert buf[..k] == f + rest[..k - n];
      }
      assert buf[..|buf|] == buf;
    }
  }

  // However a stream of frames and the start of one more is cut into chunks, the messages are
  // those of the good frames, in order, every other frame is answered by its error, and the
  // started frame is left.
  lemma ChunksDoNotMatter<M(!new)>(c: Codec<M>, frames: seq<Bytes>, kinds: seq<Kind<M>>, rest: Bytes,
                                   outcome: Outcome, chunks: seq<Bytes>)
    requires AreFrames(c, frames, kinds) && Halts(rest, outcome)
    requires Flat(chunks) == Flat(frames) + rest
    ensures Feed(c, chunks) ==
      Drained(MessagesOf(kinds), RepliesTo(frames, kinds), rest, outcome)
  {
    DrainFrames(c, frames, kinds, rest, outcome);
    FeedIsDrain(c, chunks);
  }

  // ---- termination ----

  // The first n bytes are whole frames of the right version, none empty, and no unpacker raises.
  predicate Passes<M>(c: Codec<M>, buf: Bytes, n: nat)
    decreases n
  {
    n == 0 ||
    (&& Complete(buf) && 0 < Length(buf) <= n
     && (c.known(buf[1]) ==> c.unpack(buf[1], buf).Some?)
     && Passes(c, buf[Length(buf)..], n - Length(buf)))
  }

  // A header of the right version that claims length zero, on which no unpacker raises.
  predicate ZeroHead<M>(c: Codec<M>, buf: Bytes) {
    Complete(buf) && Length(buf) == 0 && (c.known(buf[1]) ==> c.unpack(buf[1], buf).Some?)
  }

  ghost predicate ZeroAfterFrames<M>(c: Codec<M>, buf: Bytes) {
    exists n: nat :: n <= |buf| && Passes(c, buf, n) && ZeroHead(c, buf[n..])
  }

  lemma ZeroAtOnce<M>(c: Codec<M>, buf: Bytes)
    requires Next(c, buf).Stop?
    ensures ZeroAfterFrames(c, buf) <==> Next(c, buf).outcome == Spinning
  {
    assert buf[0..] == buf;
    if Next(c, buf).outcome == Spinning {
      assert Passes(c, buf, 0) && ZeroHead(c, buf[0..]);
    }
  }

  lemma ZeroLater<M>(c: Codec<M>, buf: Bytes)
    requires !Next(c, buf).Stop?
    ensures ZeroAfterFrames(c, buf) <==> ZeroAfterFrames(c, buf[Length(buf)..])
  {
    var k := Length(buf);
    var left := buf[k..];
    assert buf[0..] == buf && !ZeroHead(c, buf);
    if n: nat :| n <= |left| && Passes(c, left, n) && ZeroHead(c, left[n..]) {
      assert buf[k + n..] == left[n..] && Passes(c, buf, k + n);
    }
    if n: nat :| n <= |buf| && Passes(c, buf, n) && ZeroHead(c, buf[n..]) {
      assert left[n - k..] == buf[n..];
    }
  }

  // read fails to return exactly on a buffer in which whole frames are followed by such a header.
  lemma {:induction false} SpinsOnZeroLength<M>(c: Codec<M>, buf: Bytes)
    ensures Drain(c, buf).outcome == Spinning <==>
            exists n: nat :: n <= |buf| && Passes(c, buf, n) && ZeroHead(c, buf[n..])
    decreases |buf|
  {
    hide Next, Passes, ZeroHead;
    if Next(c, buf).Stop? {
      ZeroAtOnce(c, buf);
    } else {
      ZeroLater(c, buf);
      SpinsOnZeroLength(c, buf[Length(buf)..]);
    }
  }

  // Four bytes are enough.
  lemma SpinExample<M>(c: Codec<M>, t: Byte, tail: Bytes)
    requires !c.known(t)
    ensures Drain(c, [OFP_VERSION, t, 0, 0] + tail).outcome == Spinning
  {
  }

  // Nothing is lost and nothing is moved: what is left is the end of what was there, and only
  // whole frames are gone.
  lemma {:induction false} RestIsSuffix<M>(c: Codec<M>, buf: Bytes)
    ensures var d := Drain(c, buf);
      |d.rest| <= |buf| && d.rest == buf[|buf| - |d.rest|..] && (d.outcome == Waiting ==> Partial(d.rest))
    decreases |buf|
  {
    hide Before, Partial;
    var h := Next(c, buf);
    if h.Stop? {
      WaitsOnPartial(c, buf);
    } else {
      hide Next;
      var left := buf[h.n..];
      RestIsSuffix(c, left);
      var rest := Drain(c, left).rest;
      RestBefore(c, buf);
      assert left[|left| - |rest|..] == buf[|buf| - |rest|..];
    }
  }

  lemma RestBefore<M>(c: Codec<M>, buf: Bytes)
    requires !Next(c, buf).Stop?
    ensures var d, e := Drain(c, buf), Drain(c, buf[Next(c, buf).n..]);
      d.rest == e.rest && d.outcome == e.outcome
  {
  }

  lemma WaitsOnPartial<M>(c: Codec<M>, buf: Bytes)
    requires Next(c, buf).Stop?
    ensures Next(c, buf).outcome == Waiting ==> Partial(buf)
  {
  }
}
