/** SLIP framing as RFC 1055 defines it (section PROTOCOL), and the decoder of
    keyboards/keyboard_quantizer/keyboard_quantizer.c. */
module Slip {
  import opened Binary

  const END: Byte := 0xC0
  const ESC: Byte := 0xDB
  const ESC_END: Byte := 0xDC
  const ESC_ESC: Byte := 0xDD
  const BUFFER_LEN := 1024

  // ---------- the encoding ----------

  function EncodeByte(b: Byte): seq<Byte> {
    if b == END then [ESC, ESC_END] else if b == ESC then [ESC, ESC_ESC] else [b]
  }

  function Escape(packet: seq<Byte>): seq<Byte> {
    if packet == [] then [] else Escape(packet[..|packet| - 1]) + EncodeByte(packet[|packet| - 1])
  }

  function Encode(packets: seq<seq<Byte>>): seq<Byte> {
    if packets == [] then []
    else Encode(packets[..|packets| - 1]) + (Escape(packets[|packets| - 1]) + [END])
  }

  /** The bytes of the protocol: a packet ends with octal 300; that byte and octal 333 inside it are sent as octal
      333 334 and 333 335. */
  lemma ProtocolBytes(b: Byte)
    ensures Escape([b]) == if b == 192 then [219, 220] else if b == 219 then [219, 221] else [b]
    ensures Encode([[b]]) == Escape([b]) + [192]
  {
    assert [b][..0] == [] && [[b]][..0] == [];
    assert Escape([b]) == Escape([]) + EncodeByte(b);
  }

  // ---------- the decoder ----------

  /** The bytes of the packet so far, whether an escape byte came last, whether the buffer has
      overflowed, and all packets that were handed to parse_packet */
  datatype State = State(packet: seq<Byte>, escaped: bool, overflow: bool, delivered: seq<seq<Byte>>)

  const INIT := State([], false, false, [])

  function Unescape(c: Byte, escaped: bool): Byte {
    if escaped && c == ESC_END then END else if escaped && c == ESC_ESC then ESC else c
  }

  function Receive(s: State, c: Byte): State {
    if c == END then State([], false, false, if s.overflow then s.delivered else s.delivered + [s.packet])
    else if c == ESC then s.(escaped := true)
    else if |s.packet| < BUFFER_LEN then s.(packet := s.packet + [Unescape(c, s.escaped)], escaped := false)
    else s
  }

  function Feed(s: State, bytes: seq<Byte>): State {
    if bytes == [] then s else Receive(Feed(s, bytes[..|bytes| - 1]), bytes[|bytes| - 1])
  }

  /** Several calls of process_packet, each with the bytes that have arrived */
  function FeedAll(s: State, chunks: seq<seq<Byte>>): State {
    if chunks == [] then s else Feed(FeedAll(s, chunks[..|chunks| - 1]), chunks[|chunks| - 1])
  }

  function Concat(chunks: seq<seq<Byte>>): seq<Byte> {
    if chunks == [] then [] else Concat(chunks[..|chunks| - 1]) + chunks[|chunks| - 1]
  }

  lemma {:induction false} FeedAppend(s: State, a: seq<Byte>, b: seq<Byte>)
    ensures Feed(s, a + b) == Feed(Feed(s, a), b)
  {
    if b == [] {
      assert a + b == a;
    } else {
      FeedAppend(s, a, b[..|b| - 1]);
      assert (a + b)[..|a + b| - 1] == a + b[..|b| - 1];
    }
  }

  /** How the stream is split over the calls does not matter. */
  lemma {:induction false} SplitDoesNotMatter(s: State, chunks: seq<seq<Byte>>)
    ensures FeedAll(s, chunks) == Feed(s, Concat(chunks))
  {
    if chunks != [] {
      SplitDoesNotMatter(s, chunks[..|chunks| - 1]);
      FeedAppend(s, Concat(chunks[..|chunks| - 1]), chunks[|chunks| - 1]);
    }
  }

  /** The packet never outgrows the buffer and the overflow flag is never set: bytes that do not fit
      are dropped instead. */
  lemma {:induction false} NeverOverflows(bytes: seq<Byte>)
    ensures var s := Feed(INIT, bytes); !s.overflow && |s.packet| <= 1024
  {
    if bytes != [] { NeverOverflows(bytes[..|bytes| - 1]); }
  }

  // ---------- decoding what was encoded ----------

  function Clip(packet: seq<Byte>): seq<Byte> {
    if |packet| <= BUFFER_LEN then packet else packet[..BUFFER_LEN]
  }

  function ClipAll(packets: seq<seq<Byte>>): seq<seq<Byte>> {
    if packets == [] then [] else ClipAll(packets[..|packets| - 1]) + [Clip(packets[|packets| - 1])]
  }

  lemma FeedOne(s: State, c: Byte)
    ensures Feed(s, [c]) == Receive(s, c)
  {
  }

  /** No escape is pending, or the buffer is full and takes nothing any more. */
  predicate Ready(s: State) {
    !s.overflow && (|s.packet| >= BUFFER_LEN || !s.escaped)
  }

  /** A byte and its escape sequence: one byte more, unless the buffer is full. */
  lemma FeedByte(s: State, b: Byte)
    requires Ready(s)
    ensures var t := Feed(s, EncodeByte(b));
      && t.delivered == s.delivered && Ready(t)
      && t.packet == if |s.packet| < BUFFER_LEN then s.packet + [b] else s.packet
  {
    if b == END || b == ESC {
      var second := if b == END then ESC_END else ESC_ESC;
      assert EncodeByte(b) == [ESC] + [second];
      FeedAppend(s, [ESC], [second]);
      FeedOne(s, ESC);
      FeedOne(Receive(s, ESC), second);
    } else {
      FeedOne(s, b);
    }
  }

  lemma ClipNext(packet: seq<Byte>)
    requires packet != []
    ensures var n := |packet| - 1;
      Clip(packet) == if |Clip(packet[..n])| < BUFFER_LEN then Clip(packet[..n]) + [packet[n]] else Clip(packet[..n])
  {
  }

  lemma {:induction false} FeedPacket(s: State, packet: seq<Byte>)
    requires s.packet == [] && !s.escaped && !s.overflow
    ensures var t := Feed(s, Escape(packet)); t.packet == Clip(packet) && t.delivered == s.delivered && Ready(t)
  {
    if packet != [] {
      var n := |packet| - 1;
      FeedPacket(s, packet[..n]);
      ClipNext(packet);
      FeedAppend(s, Escape(packet[..n]), EncodeByte(packet[n]));
      FeedByte(Feed(s, Escape(packet[..n])), packet[n]);
    }
  }

  /** Every packet arrives, cut to the buffer's size. */
  lemma {:induction false} DecodeEncode(packets: seq<seq<Byte>>)
    ensures Feed(INIT, Encode(packets)) == State([], false, false, ClipAll(packets))
  {
    if packets != [] {
      var n := |packets| - 1;
      DecodeEncode(packets[..n]);
      var before := Encode(packets[..n]);
      FeedAppend(INIT, before, Escape(packets[n]) + [END]);
      FeedAppend(Feed(INIT, before), Escape(packets[n]), [END]);
      FeedPacket(Feed(INIT, before), packets[n]);
      FeedOne(Feed(Feed(INIT, before), Escape(packets[n])), END);
    }
  }

  lemma ClipAllIsIdentity(packets: seq<seq<Byte>>)
    ensures ClipAll(packets) == packets <==> forall i :: 0 <= i < |packets| ==> |packets[i]| <= BUFFER_LEN
  {
  }

  /** However the encoded stream is split, the packets arrive as they were sent, exactly when each
      fits the buffer. */
  lemma RoundTripExactly(packets: seq<seq<Byte>>, chunks: seq<seq<Byte>>)
    requires Concat(chunks) == Encode(packets)
    ensures FeedAll(INIT, chunks).delivered == packets
            <==> forall i :: 0 <= i < |packets| ==> |packets[i]| <= 1024
  {
    SplitDoesNotMatter(INIT, chunks);
    DecodeEncode(packets);
    ClipAllIsIdentity(packets);
  }

  // ---------- process_packet ----------

  class Receiver {
    const buf: array<Byte>
    var widx: nat
    var escaped: bool
    var overflow: bool
    /** The packets handed to parse_packet */
    ghost var delivered: seq<seq<Byte>>

    /** The write index stays in the buffer. */
    ghost predicate Valid()
      reads this
    {
      buf.Length == BUFFER_LEN && widx <= BUFFER_LEN
    }

    ghost function Received(): State
      reads this, buf
      requires Valid()
    {
      State(buf[..widx], escaped, overflow, delivered)
    }

    constructor ()
      ensures Valid() && fresh(buf) && Received() == INIT
    {
      buf := new Byte[BUFFER_LEN](i => 0);
      widx, escaped, overflow := 0, false, false;
      delivered := [];
    }

    method Reset()
      requires buf.Length == BUFFER_LEN
      modifies this`widx, this`escaped, this`overflow, buf
      ensures Valid() && widx == 0 && !escaped && !overflow
    {
      for i := 0 to BUFFER_LEN {
        buf[i] := 0;
      }
      widx, escaped, overflow := 0, false, false;
    }

    /** A byte that is not the end of a packet */
    method Store(c: Byte)
      requires Valid() && c != END
      modifies this`widx, this`escaped, this`overflow, buf
      ensures Valid() && Received() == Receive(old(Received()), c)
    {
      if c == ESC {
        escaped := true;
      } else if widx < buf.Length {
        if escaped {
          if c == ESC_END {
            buf[widx] := END;
          } else if c == ESC_ESC {
            buf[widx] := ESC;
          } else {
            buf[widx] := c;
          }
          escaped := false;
        } else {
          buf[widx] := c;
        }
        var next: int := widx + 1;
        var full := next > buf.Length;
        overflow := overflow || full;
        next := if full then 0 else next;
        widx := next;
      }
    }

    /** process_packet, with the bytes that are available */
    method ProcessPacket(bytes: seq<Byte>)
      requires Valid()
      modifies this, buf
      ensures Valid() && Received() == Feed(old(Received()), bytes)
    {
      var complete := false;
      var read := 0;
      while read < |bytes|
        invariant 0 <= read <= |bytes| && Valid() && !complete
        invariant Received() == Feed(old(Received()), bytes[..read])
        decreases |bytes| - read
      {
        ghost var start := read;
        while read < |bytes| && !complete
          invariant start <= read <= |bytes| && Valid() && (complete ==> read > start)
          invariant !complete ==> Received() == Feed(old(Received()), bytes[..read])
          invariant complete ==> !overflow && Feed(old(Received()), bytes[..read]) == Receive(Received(), END)
          decreases |bytes| - read, !complete
        {
          var c := bytes[read];
          assert bytes[..read + 1][..read] == bytes[..read];
          read := read + 1;
          if c == END {
            if overflow {
              Reset();
            } else {
              complete := true;
            }
          } else {
            Store(c);
          }
        }
        if complete {
          delivered := delivered + [buf[..widx]];
          complete := false;
          Reset();
        }
      }
      assert bytes[..read] == bytes;
    }
  }
}
