/** The TCP and TLS sessions: cutting a byte stream back into messages. */
module Deframer {
  import opened Bytes

  // ----- what the stream means -----

  datatype Next = NeedMore | Whole(message: Octets, used: nat) | Fault

  /** The first message of a stream. A ChannelData message is delivered without its padding. For payloads
      of 65533 bytes and more the padded length wraps to 0 in 16 bits, and the source would deliver bytes
      it never read: Fault. */
  function NextMessage(s: Octets): (r: Next)
    ensures r.Whole? ==> 4 <= r.used <= |s|
  {
    if s == [] then NeedMore
    else if s[0] / 0x40 == 1 then
      if |s| < 4 then NeedMore
      else
        var len: nat := Word16(s[2], s[3]);
        var padded := (len + Padding(len)) % 0x1_0000;
        if padded < len then Fault
        else if |s| < 4 + padded then NeedMore
        else Whole(s[..4 + len], 4 + padded)
    else if |s| < 20 || |s| < 20 + Word16(s[2], s[3]) as int then NeedMore
    else Whole(s[..20 + Word16(s[2], s[3]) as int], 20 + Word16(s[2], s[3]) as int)
  }

  datatype Deframed = Deframed(messages: seq<Octets>, rest: Octets, faulted: bool)

  function Deframe(s: Octets): Deframed
    decreases |s|
  {
    match NextMessage(s)
    case NeedMore => Deframed([], s, false)
    case Fault => Deframed([], s, true)
    case Whole(m, used) =>
      Prepend([m], Deframe(s[used..]))
  }

  lemma NextOfLonger(s: Octets, t: Octets)
    ensures !NextMessage(s).NeedMore? ==> NextMessage(s + t) == NextMessage(s)
  {
    if |s| >= 4 {
      assert (s + t)[2] == s[2] && (s + t)[3] == s[3];
      var r := NextMessage(s);
      if r.Whole? {
        assert (s + t)[..|r.message|] == s[..|r.message|];
      }
    }
  }

  function Prepend(messages: seq<Octets>, d: Deframed): Deframed {
    d.(messages := messages + d.messages)
  }

  lemma PrependTwice(m: Octets, messages: seq<Octets>, d: Deframed)
    ensures Prepend([m], Prepend(messages, d)) == Prepend([m] + messages, d)
  {
    assert [m] + (messages + d.messages) == [m] + messages + d.messages;
  }

  /** Deframing is incremental: what came before stays, and only the unfinished rest meets new bytes. */
  lemma {:induction false} DeframeAppend(s: Octets, t: Octets)
    ensures var a := Deframe(s);
            if a.faulted then Deframe(s + t).faulted && Deframe(s + t).messages == a.messages
            else Deframe(s + t) == Prepend(a.messages, Deframe(a.rest + t))
    decreases |s|
  {
    NextOfLonger(s, t);
    var r := NextMessage(s);
    if r.Whole? {
      assert (s + t)[r.used..] == s[r.used..] + t;
      DeframeAppend(s[r.used..], t);
      var a := Deframe(s[r.used..]);
      PrependTwice(r.message, a.messages, Deframe(a.rest + t));
    } else if r.NeedMore? {
      assert Prepend([], Deframe(s + t)) == Deframe(s + t);
    }
  }

  lemma StillReading(received: Octets, delivered: seq<Octets>, partial: Octets, piece: Octets)
    requires Deframe(received) == Prepend(delivered, Deframe(partial))
    requires NextMessage(partial).NeedMore?
    ensures Deframe(received + piece) == Prepend(delivered, Deframe(partial + piece))
  {
    assert Deframe(received) == Deframed(delivered + [], partial, false);
    assert delivered + [] == delivered;
    DeframeAppend(received, piece);
  }

  // ----- the session -----

  datatype Reading = FirstByte | StunHeader | StunBody | ChannelHeader | ChannelBody | Faulted

  /** One TCP session. The pending asynchronous read has collected got and completes at want bytes; a read
      of 0 bytes completes at once. delivered lists the calls of the receive callback. */
  class TcpSession {
    var reading: Reading
    var want: nat
    var got: Octets
    var firstByte: byte
    var header: Octets
    var delivered: seq<Octets>
    ghost var received: Octets

    /** The bytes of the message being read. */
    ghost function Partial(): Octets
      reads this
    {
      match reading
      case FirstByte => got
      case StunHeader => [firstByte] + got
      case ChannelHeader => [firstByte] + got
      case StunBody => header + got
      case ChannelBody => header + got
      case Faulted => []
    }

    ghost predicate Shape()
      reads this
    {
      && |got| <= want
      && match reading
         case FirstByte => want == 1
         case StunHeader => want == 19 && firstByte / 0x40 != 1
         case ChannelHeader => want == 3 && firstByte / 0x40 == 1
         case StunBody => |header| == 20 && header[0] / 0x40 != 1 && want == Word16(header[2], header[3])
         case ChannelBody =>
           && |header| == 4 && header[0] / 0x40 == 1
           && var len: nat := Word16(header[2], header[3]); len <= want == (len + Padding(len)) % 0x1_0000
         case Faulted => true
    }

    /** The session agrees with the meaning of the bytes received so far. */
    ghost predicate Agrees()
      reads this
    {
      if reading.Faulted? then Deframe(received).faulted && Deframe(received).messages == delivered
      else Deframe(received) == Prepend(delivered, Deframe(Partial()))
    }

    ghost predicate Valid()
      reads this
    {
      Shape() && Agrees() && (|got| < want || reading.Faulted?)
    }

    constructor ()
      ensures Valid() && received == [] && delivered == [] && reading == FirstByte
    {
      reading, want, got, firstByte, header := FirstByte, 1, [], 0, [];
      delivered, received := [], [];
    }

    method Await(next: Reading, size: nat)
      modifies this`reading, this`want, this`got
      ensures reading == next && want == size && got == []
    {
      reading, want, got := next, size, [];
    }

    /** Hand one message to the callback and start over with the next first byte. */
    method Deliver(message: Octets)
      requires Shape() && Agrees() && !reading.Faulted?
      requires NextMessage(Partial()) == Whole(message, |Partial()|)
      modifies this
      ensures Valid() && reading == FirstByte && received == old(received)
    {
      ghost var p := Partial();
      assert Deframe(p) == Prepend([message], Deframe([]));
      assert Prepend(delivered, Deframe(p)) == Prepend(delivered + [message], Deframe([]));
      delivered := delivered + [message];
      Await(FirstByte, 1);
    }

    method OnStunBody()
      requires Shape() && Agrees() && reading == StunBody && |got| == want
      modifies this
      ensures Valid() && received == old(received)
    {
      Deliver(header + got);
    }

    method OnStunHeader()
      requires Shape() && Agrees() && reading == StunHeader && |got| == want
      modifies this
      ensures Valid() && received == old(received)
    {
      header := [firstByte] + got;
      assert Partial() == header + [];
      Await(StunBody, Word16(header[2], header[3]));
      if want == 0 {
        OnStunBody();
      }
    }

    method OnChannelBody()
      requires Shape() && Agrees() && reading == ChannelBody && |got| == want
      modifies this
      ensures Valid() && received == old(received)
    {
      var dataLen := Word16(header[2], header[3]);
      assert (header + got)[..4 + dataLen as int] == header + got[..dataLen];
      Deliver(header + got[..dataLen]);
    }

    method OnChannelHeader()
      requires Shape() && Agrees() && reading == ChannelHeader && |got| == want
      modifies this
      ensures Valid() && received == old(received)
    {
      var dataLen: nat := Word16(got[1], got[2]);
      var padded := (dataLen + if dataLen % 4 != 0 then 4 - dataLen % 4 else 0) % 0x1_0000;
      header := [firstByte] + got;
      assert Partial() == header + [];
      if padded < dataLen {
        assert NextMessage(header) == Fault;
        reading := Faulted;
        assert delivered + [] == delivered;
      } else {
        Await(ChannelBody, padded);
        if want == 0 {
          OnChannelBody();
        }
      }
    }

    method OnFirstByte()
      requires Shape() && Agrees() && reading == FirstByte && |got| == want
      modifies this
      ensures Valid() && received == old(received)
    {
      firstByte := got[0];
      assert Partial() == [firstByte] + [];
      if firstByte / 0x40 == 1 {
        Await(ChannelHeader, 3);
      } else {
        Await(StunHeader, 19);
      }
    }

    /** A chunk arrives from the socket, cut anywhere. */
    method OnBytes(chunk: Octets)
      requires Valid()
      modifies this
      ensures Valid() && received == old(received) + chunk
    {
      hide Deframe, Padding;
      ghost var before := received;
      var i := 0;
      while i < |chunk| && !reading.Faulted?
        invariant 0 <= i <= |chunk| && Valid() && received == before + chunk[..i]
      {
        var n := if want - |got| < |chunk| - i then want - |got| else |chunk| - i;
        Pieces(before, chunk, i, i + n);
        Collect(chunk[i..i + n]);
        i := i + n;
      }
      Pieces(before, chunk, i, |chunk|);
      if i < |chunk| {
        Discard(chunk[i..]);
      }
    }

    lemma Pieces(before: Octets, chunk: Octets, i: nat, j: nat)
      requires i <= j <= |chunk|
      ensures before + chunk[..i] + chunk[i..j] == before + chunk[..j]
      ensures j == |chunk| ==> chunk[i..j] == chunk[i..] && chunk[..j] == chunk
    {
      assert chunk[..i] + chunk[i..j] == chunk[..j];
    }

    /** Nothing is read any more after a fault. */
    method Discard(piece: Octets)
      requires Valid() && reading.Faulted?
      modifies this`received
      ensures Valid() && received == old(received) + piece
    {
      DeframeAppend(received, piece);
      received := received + piece;
    }

    lemma MessageUnfinished()
      requires Shape() && !reading.Faulted? && |got| < want
      ensures NextMessage(Partial()).NeedMore?
    {
      var p := Partial();
      match reading
      case FirstByte =>
      case StunHeader => assert p[0] == firstByte;
      case ChannelHeader => assert p[0] == firstByte;
      case StunBody => assert p[0] == header[0] && p[2] == header[2] && p[3] == header[3];
      case ChannelBody => assert p[0] == header[0] && p[2] == header[2] && p[3] == header[3];
    }

    /** What a session has handed out, and what it still holds, is exactly what its bytes mean. */
    lemma Summary()
      requires Valid()
      ensures Deframe(received).messages == delivered
      ensures Deframe(received).faulted <==> reading.Faulted?
      ensures !reading.Faulted? ==> Deframe(received).rest == Partial()
      ensures Partial() == [] <==> reading == FirstByte || reading == Faulted
    {
      if !reading.Faulted? {
        MessageUnfinished();
        assert delivered + [] == delivered;
      }
    }

    method Absorb(piece: Octets)
      requires Valid() && !reading.Faulted? && |got| + |piece| <= want
      modifies this`got, this`received
      ensures Shape() && Agrees()
      ensures received == old(received) + piece && got == old(got) + piece
    {
      hide Deframe, NextMessage, Padding;
      MessageUnfinished();
      StillReading(received, delivered, Partial(), piece);
      ghost var longer := Partial() + piece;
      got := got + piece;
      received := received + piece;
      assert Partial() == longer;
    }

    /** The pending read is complete. */
    method Complete()
      requires Shape() && Agrees() && !reading.Faulted? && |got| == want
      modifies this
      ensures Valid() && received == old(received)
    {
      match reading
      case FirstByte => OnFirstByte();
      case StunHeader => OnStunHeader();
      case StunBody => OnStunBody();
      case ChannelHeader => OnChannelHeader();
      case ChannelBody => OnChannelBody();
    }

    method Collect(piece: Octets)
      requires Valid() && !reading.Faulted? && |got| + |piece| <= want
      modifies this
      ensures Valid() && received == old(received) + piece
    {
      Absorb(piece);
      if |got| == want {
        Complete();
      }
    }
  }
}
