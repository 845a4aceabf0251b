/** The two pumps' octet loops, over the buffers they fill in place. */
module DataPump {
  import opened Crc
  import opened ErrorDetection
  import opened Hdlc

  // ---------------------------------------------------------------------------
  // Serial octets into frames
  // ---------------------------------------------------------------------------

  // The running CRC lags two octets behind the write index, so that at the closing
  // flag it covers the payload and not the check octets.
  class Receiver {
    const frame: array<Octet>
    var size: nat
    var crc: bv16
    var escaped: bool

    ghost predicate Valid()
      reads this, frame
    {
      && frame.Length == BUFFER_SIZE
      && size <= BUFFER_SIZE
      && crc == Fcs(INITIAL_FCS, frame[..Lag(size)])
    }

    ghost function State(): Decoder
      reads this, frame
      requires Valid()
    {
      Decoder(frame[..size], escaped)
    }

    constructor ()
      ensures Valid() && State() == FRESH && fresh(frame)
    {
      frame := new Octet[BUFFER_SIZE];
      size, crc, escaped := 0, INITIAL_FCS, false;
    }

    // The protothread begins again: a closed frame, a full buffer, a read error or a reset.
    method Restart()
      requires frame.Length == BUFFER_SIZE
      modifies this
      ensures Valid() && State() == FRESH
    {
      size, crc, escaped := 0, INITIAL_FCS, false;
    }

    method Append(octet: Octet)
      requires Valid()
      modifies this, frame
      ensures Valid() && State() == Store(old(frame[..size]), octet)
    {
      ghost var body, covered := frame[..size], frame[..Lag(size + 1)];
      var next := crc;
      if size >= 2 {
        assert covered == frame[..Lag(size)] + [frame[size - 2]];
        next := Advance(crc, frame[size - 2], frame[..Lag(size)]);
      }
      assert next == Fcs(INITIAL_FCS, covered);
      if size < frame.Length {
        frame[size] := octet;
        size, crc, escaped := size + 1, next, false;
        assert frame[..size] == body + [octet] && frame[..Lag(size)] == covered;
      } else {
        Restart();
      }
    }

    method Close() returns (out: seq<seq<Octet>>)
      requires Valid()
      ensures out == Delivered(frame[..size])
    {
      if size <= 2 {
        return [];
      }
      var body := frame[..size];
      assert body[..size - 2] == frame[..Lag(size)];
      out := CheckBody(body, crc);
    }

    // One octet from the serial line.
    method Feed(octet: Octet) returns (out: seq<seq<Octet>>)
      requires Valid()
      modifies this, frame
      ensures Valid() && State() == Step(old(State()), octet)
      ensures out == if octet == FLAG then Delivered(old(State()).body) else []
    {
      out := [];
      if octet == FLAG {
        out := Close();
        Restart();
      } else if escaped {
        Append(Flip(octet));
      } else if octet == ESC {
        escaped := true;
      } else {
        Append(octet);
      }
    }

    // A stretch of the serial stream, however it was cut up for reading.
    method Pump(stream: seq<Octet>) returns (out: seq<seq<Octet>>)
      requires Valid()
      modifies this, frame
      ensures Valid() && State() == Run(old(State()), stream)
      ensures out == Decode(old(State()), stream)
    {
      out := [];
      ghost var start := State();
      for i := 0 to |stream|
        invariant Valid() && State() == Run(start, stream[..i])
        invariant out == Decode(start, stream[..i])
      {
        ghost var before := State();
        var more := Feed(stream[i]);
        OneMore(start, stream[..i], stream[i]);
        assert stream[..i + 1] == stream[..i] + [stream[i]];
        out := out + more;
      }
      assert stream[..|stream|] == stream;
    }
  }

  function Lag(size: nat): nat {
    if size >= 2 then size - 2 else 0
  }

  // One more octet into the running CRC.
  method Advance(crc: bv16, octet: Octet, ghost past: seq<Octet>) returns (next: bv16)
    requires crc == Fcs(INITIAL_FCS, past)
    ensures next == Fcs(INITIAL_FCS, past + [octet])
  {
    next := Crc16(crc, octet);
    FcsAppend(INITIAL_FCS, past, [octet]);
    assert [octet][1..] == [];
  }

  // The inverted CRC against the two octets that follow the payload, low octet first.
  method Matches(crc: bv16, low: Octet, high: Octet) returns (matches: bool)
    ensures matches <==> [low, high] == CheckOctets(crc)
  {
    TrailingCheck(crc, low, high);
    matches := crc ^ 0xFFFF == Wide(low, high);
  }

  // A body of more than two octets, with the CRC of all but the last two.
  method CheckBody(body: seq<Octet>, crc: bv16) returns (out: seq<seq<Octet>>)
    requires |body| > 2 && crc == Fcs(INITIAL_FCS, body[..|body| - 2])
    ensures out == Delivered(body)
  {
    var n := |body| - 2;
    var matches := Matches(crc, body[n], body[n + 1]);
    ClosedBody(body, crc, body[..n], body[n], body[n + 1]);
    out := if matches then [body[..n]] else [];
  }

  lemma ClosedBody(body: seq<Octet>, crc: bv16, payload: seq<Octet>, low: Octet, high: Octet)
    requires |payload| > 0 && body == payload + [low, high] && crc == Fcs(INITIAL_FCS, payload)
    ensures Delivered(body) == if [low, high] == CheckOctets(crc) then [payload] else []
  {
    var n := |body| - 2;
    assert body[..n] == payload && body[n..] == [low, high];
  }

  lemma TrailingCheck(crc: bv16, low: Octet, high: Octet)
    ensures crc ^ 0xFFFF == Wide(low, high) <==> [low, high] == CheckOctets(crc)
  {
    CheckOctetsAre(crc, low, high);
    CheckWord(crc, low, high);
    var word := Wide(low, high);
    if crc ^ 0xFFFF == word {
      XorOver(crc, word);
    }
    if crc ^ word == 0xFFFF {
      XorBack(crc, word);
    }
  }

  lemma XorOver(x: bv16, y: bv16)
    requires x ^ 0xFFFF == y
    ensures x ^ y == 0xFFFF
  {}

  lemma XorBack(x: bv16, y: bv16)
    requires x ^ y == 0xFFFF
    ensures x ^ 0xFFFF == y
  {}

  lemma OneMore(d: Decoder, past: seq<Octet>, octet: Octet)
    ensures Run(d, past + [octet]) == Step(Run(d, past), octet)
    ensures Decode(d, past + [octet])
         == Decode(d, past) + if octet == FLAG then Delivered(Run(d, past).body) else []
  {
    var mid := Run(d, past);
    RunAppend(d, past, [octet]);
    DecodeAppend(d, past, [octet]);
    if octet == FLAG {
      RunFlag(mid);
      DeliverTwo(mid.body, []);
    } else {
      RunOne(mid, octet);
    }
  }

  // ---------------------------------------------------------------------------
  // Frames into serial octets
  // ---------------------------------------------------------------------------

  // The buffer holds as much of the text as it has room for. The program does not look how much
  // that is: here a store past the end is counted but not made.
  ghost predicate Holds(buffer: seq<Octet>, text: seq<Octet>) {
    if |text| <= |buffer| then buffer[..|text|] == text else buffer == text[..|buffer|]
  }

  method PutOctet(escaped: array<Octet>, n: nat, octet: Octet, ghost text: seq<Octet>) returns (m: nat)
    requires n == |text| && Holds(escaped[..], text)
    modifies escaped
    ensures m == n + 1 && Holds(escaped[..], text + [octet])
  {
    if n < escaped.Length {
      escaped[n] := octet;
      assert escaped[..n + 1] == text + [octet];
    }
    m := n + 1;
  }

  method PutEscaped(escaped: array<Octet>, n: nat, octet: Octet, ghost text: seq<Octet>) returns (m: nat)
    requires n == |text| && Holds(escaped[..], text)
    modifies escaped
    ensures m == n + |Escape(octet)| && Holds(escaped[..], text + Escape(octet))
  {
    if NeedsEscape(octet) {
      m := PutOctet(escaped, n, ESC, text);
      m := PutOctet(escaped, m, Flip(octet), text + [ESC]);
      assert text + [ESC] + [Flip(octet)] == text + Escape(octet);
    } else {
      m := PutOctet(escaped, n, octet, text);
    }
  }

  lemma EscapeNext(data: seq<Octet>, i: nat)
    requires i < |data|
    ensures EscapeAll(data[..i + 1]) == EscapeAll(data[..i]) + Escape(data[i])
  {
    assert data[..i + 1][..i] == data[..i];
  }

  // The check octets, low octet first, and the closing flag.
  method PutTrailer(escaped: array<Octet>, n: nat, fcs: bv16, ghost text: seq<Octet>) returns (m: nat)
    requires n == |text| && Holds(escaped[..], text)
    modifies escaped
    ensures m == n + |EscapeAll(CheckOctets(fcs))| + 1
    ensures Holds(escaped[..], text + EscapeAll(CheckOctets(fcs)) + [FLAG])
  {
    var check := CheckOctets(fcs);
    EscapeTwo(check);
    m := PutEscaped(escaped, n, check[0], text);
    m := PutEscaped(escaped, m, check[1], text + Escape(check[0]));
    assert text + Escape(check[0]) + Escape(check[1]) == text + EscapeAll(check);
    m := PutOctet(escaped, m, FLAG, text + EscapeAll(check));
  }

  lemma EscapeTwo(check: seq<Octet>)
    requires |check| == 2
    ensures EscapeAll(check) == Escape(check[0]) + Escape(check[1])
  {
    var one := check[..1];
    assert one[..0] == [] && EscapeAll(one) == Escape(check[0]);
  }

  lemma {:induction false} EscapeAppend(s: seq<Octet>, t: seq<Octet>)
    ensures EscapeAll(s + t) == EscapeAll(s) + EscapeAll(t)
    decreases |t|
  {
    if t == [] {
      assert s + t == s;
    } else {
      var init := t[..|t| - 1];
      assert (s + t)[..|s + t| - 1] == s + init;
      EscapeAppend(s, init);
    }
  }

  method EncodeOctet(escaped: array<Octet>, n: nat, crc: bv16, octet: Octet, ghost payload: seq<Octet>, ghost i: nat)
    returns (m: nat, next: bv16)
    requires i < |payload| && octet == payload[i]
    requires crc == Fcs(INITIAL_FCS, payload[..i])
    requires n == 1 + |EscapeAll(payload[..i])| && Holds(escaped[..], [FLAG] + EscapeAll(payload[..i]))
    modifies escaped
    ensures next == Fcs(INITIAL_FCS, payload[..i + 1])
    ensures m == 1 + |EscapeAll(payload[..i + 1])| && Holds(escaped[..], [FLAG] + EscapeAll(payload[..i + 1]))
  {
    EscapeNext(payload, i);
    next := Advance(crc, octet, payload[..i]);
    assert payload[..i + 1] == payload[..i] + [octet];
    ghost var text := [FLAG] + EscapeAll(payload[..i]);
    m := PutEscaped(escaped, n, octet, text);
    assert text + Escape(octet) == [FLAG] + EscapeAll(payload[..i + 1]);
  }

  method EncodeBody(buffer: array<Octet>, length: nat, escaped: array<Octet>) returns (n: nat, crc: bv16)
    requires length <= buffer.Length && buffer != escaped
    modifies escaped
    ensures n == 1 + |EscapeAll(buffer[..length])|
    ensures Holds(escaped[..], [FLAG] + EscapeAll(buffer[..length]))
    ensures crc == Fcs(INITIAL_FCS, buffer[..length])
  {
    ghost var payload := buffer[..length];
    crc := INITIAL_FCS;
    n := PutOctet(escaped, 0, FLAG, []);
    for i := 0 to length
      invariant buffer[..length] == payload
      invariant crc == Fcs(INITIAL_FCS, payload[..i])
      invariant n == 1 + |EscapeAll(payload[..i])| && Holds(escaped[..], [FLAG] + EscapeAll(payload[..i]))
    {
      n, crc := EncodeOctet(escaped, n, crc, buffer[i], payload, i);
    }
    assert payload[..length] == payload;
  }

  // Escape the outbound buffer, append the check octets and wrap it all in flags. The result is
  // the encoded frame exactly when there is room for it.
  method EncodeFrame(buffer: array<Octet>, length: nat, escaped: array<Octet>) returns (n: nat)
    requires length <= buffer.Length && buffer != escaped
    modifies escaped
    ensures n == |Encode(buffer[..length])| && Holds(escaped[..], Encode(buffer[..length]))
    ensures n <= escaped.Length ==> escaped[..n] == Encode(buffer[..length])
  {
    ghost var payload := buffer[..length];
    ghost var check := CheckOctets(Fcs(INITIAL_FCS, payload));
    EscapeAppend(payload, check);
    var crc;
    n, crc := EncodeBody(buffer, length, escaped);
    n := PutTrailer(escaped, n, crc, [FLAG] + EscapeAll(payload));
    assert [FLAG] + EscapeAll(payload) + EscapeAll(check) + [FLAG] == Encode(payload);
  }

  // ---------------------------------------------------------------------------
  // Both together
  // ---------------------------------------------------------------------------

  // One frame encoded into the escaped buffer and pumped into a new receiver: given room, exactly
  // that frame comes out if it has 1 to BUFFER_SIZE - 2 octets, and something else otherwise.
  method Loopback(buffer: array<Octet>, length: nat, escaped: array<Octet>)
    returns (room: bool, out: seq<seq<Octet>>)
    requires length <= buffer.Length && buffer != escaped
    modifies escaped
    ensures room <==> |Encode(buffer[..length])| <= escaped.Length
    ensures room ==> (out == [buffer[..length]] <==> 1 <= length <= BUFFER_SIZE - 2)
  {
    var n := EncodeFrame(buffer, length, escaped);
    room := n <= escaped.Length;
    out := [];
    if room {
      var receiver := new Receiver();
      out := receiver.Pump(escaped[..n]);
      RoundTripIff(buffer[..length]);
    }
  }
}
