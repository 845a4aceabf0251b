/** HDLC-Lite framing on the serial link (section 4.2 of RFC 1662, with the extra
    reserved octets of the Spinel draft): what the sender writes, what the receiver
    makes of any octet stream, and how the two fit together.
 */
module Hdlc {
  import opened Crc
  import opened ErrorDetection

  const FLAG: Octet := 0x7E
  const ESC: Octet := 0x7D
  const XON: Octet := 0x11
  const XOFF: Octet := 0x13
  const SPECIAL: Octet := 0xF8
  const ESCAPE_XFORM: Octet := 0x20

  // SPINEL_FRAME_BUFFER_SIZE
  const BUFFER_SIZE: nat := 1300

  function Flip(octet: Octet): Octet {
    octet ^ ESCAPE_XFORM
  }

  predicate NeedsEscape(octet: Octet) {
    octet == SPECIAL || octet == ESC || octet == FLAG || octet == XOFF || octet == XON
  }

  // ---------------------------------------------------------------------------
  // The sender
  // ---------------------------------------------------------------------------

  function Escape(octet: Octet): seq<Octet> {
    if NeedsEscape(octet) then [ESC, Flip(octet)] else [octet]
  }

  function EscapeAll(data: seq<Octet>): seq<Octet> {
    if data == [] then [] else EscapeAll(data[..|data| - 1]) + Escape(data[|data| - 1])
  }

  // A payload with its check octets, before escaping.
  function Checked(payload: seq<Octet>): (body: seq<Octet>)
    ensures |body| == |payload| + 2
  {
    payload + CheckOctets(Fcs(INITIAL_FCS, payload))
  }

  function Encode(payload: seq<Octet>): seq<Octet> {
    [FLAG] + EscapeAll(Checked(payload)) + [FLAG]
  }

  function EncodeAll(payloads: seq<seq<Octet>>): seq<Octet> {
    if payloads == [] then [] else Encode(payloads[0]) + EncodeAll(payloads[1..])
  }

  // ---------------------------------------------------------------------------
  // The receiver, one octet at a time
  // ---------------------------------------------------------------------------

  // The unescaped octets since the last flag or restart, and whether an escape octet is pending.
  datatype Decoder = Decoder(body: seq<Octet>, escaped: bool)

  const FRESH: Decoder := Decoder([], false)

  // A full buffer makes the receiver start over, dropping the octet it could not store.
  function Store(body: seq<Octet>, octet: Octet): Decoder {
    if |body| < BUFFER_SIZE then Decoder(body + [octet], false) else FRESH
  }

  function Step(d: Decoder, octet: Octet): Decoder {
    if octet == FLAG then FRESH
    else if d.escaped then Store(d.body, Flip(octet))
    else if octet == ESC then Decoder(d.body, true)
    else Store(d.body, octet)
  }

  function Run(d: Decoder, stream: seq<Octet>): Decoder
    decreases |stream|
  {
    if stream == [] then d else Run(Step(d, stream[0]), stream[1..])
  }

  // The bodies closed by a flag while reading the stream.
  function Closed(d: Decoder, stream: seq<Octet>): seq<seq<Octet>>
    decreases |stream|
  {
    if stream == [] then []
    else (if stream[0] == FLAG then [d.body] else []) + Closed(Step(d, stream[0]), stream[1..])
  }

  // What a closed body hands to the frame parser.
  function Delivered(body: seq<Octet>): seq<seq<Octet>> {
    if |body| > 2 && Accepts(body) then [body[..|body| - 2]] else []
  }

  function AllDelivered(bodies: seq<seq<Octet>>): seq<seq<Octet>> {
    if bodies == [] then [] else Delivered(bodies[0]) + AllDelivered(bodies[1..])
  }

  // Every payload the receiver delivers while reading the stream.
  function Decode(d: Decoder, stream: seq<Octet>): seq<seq<Octet>> {
    AllDelivered(Closed(d, stream))
  }

  lemma {:induction false} RunAppend(d: Decoder, s: seq<Octet>, t: seq<Octet>)
    ensures Run(d, s + t) == Run(Run(d, s), t)
    ensures Closed(d, s + t) == Closed(d, s) + Closed(Run(d, s), t)
    decreases |s|
  {
    if s == [] {
      assert s + t == t;
    } else {
      assert (s + t)[1..] == s[1..] + t;
      RunAppend(Step(d, s[0]), s[1..], t);
    }
  }

  lemma {:induction false} AllDeliveredAppend(s: seq<seq<Octet>>, t: seq<seq<Octet>>)
    ensures AllDelivered(s + t) == AllDelivered(s) + AllDelivered(t)
  {
    if s == [] {
      assert s + t == t;
    } else {
      assert (s + t)[1..] == s[1..] + t;
      AllDeliveredAppend(s[1..], t);
    }
  }

  lemma DecodeAppend(d: Decoder, s: seq<Octet>, t: seq<Octet>)
    ensures Decode(d, s + t) == Decode(d, s) + Decode(Run(d, s), t)
  {
    RunAppend(d, s, t);
    AllDeliveredAppend(Closed(d, s), Closed(Run(d, s), t));
  }

  // ---------------------------------------------------------------------------
  // Framing round-trips and resynchronises
  // ---------------------------------------------------------------------------

  lemma EscapedIsPlain(octet: Octet)
    requires NeedsEscape(octet)
    ensures !NeedsEscape(Flip(octet))
    ensures Flip(Flip(octet)) == octet
  {}

  lemma RunOne(d: Decoder, octet: Octet)
    requires octet != FLAG
    ensures Run(d, [octet]) == Step(d, octet)
    ensures Closed(d, [octet]) == []
  {
    assert [octet][1..] == [];
  }

  // One escaped octet is one stored octet.
  lemma RunEscape(body: seq<Octet>, octet: Octet)
    requires |body| < BUFFER_SIZE
    ensures Run(Decoder(body, false), Escape(octet)) == Decoder(body + [octet], false)
    ensures Closed(Decoder(body, false), Escape(octet)) == []
  {
    var d := Decoder(body, false);
    if NeedsEscape(octet) {
      EscapedIsPlain(octet);
      var x := Flip(octet);
      RunOne(d, ESC);
      RunOne(Decoder(body, true), x);
      RunAppend(d, [ESC], [x]);
      assert Escape(octet) == [ESC] + [x];
    } else {
      RunOne(d, octet);
    }
  }

  lemma {:induction false} RunEscapeAll(data: seq<Octet>)
    requires |data| <= BUFFER_SIZE
    ensures Run(FRESH, EscapeAll(data)) == Decoder(data, false)
    ensures Closed(FRESH, EscapeAll(data)) == []
  {
    if data != [] {
      var init, last := data[..|data| - 1], data[|data| - 1];
      RunEscapeAll(init);
      RunAppend(FRESH, EscapeAll(init), Escape(last));
      RunEscape(init, last);
      assert data == init + [last];
    }
  }

  lemma RunFlag(d: Decoder)
    ensures Run(d, [FLAG]) == FRESH
    ensures Closed(d, [FLAG]) == [d.body]
  {
    assert [FLAG][1..] == [];
  }

  // A flag, an escaped body and a flag, read from any state whatever.
  lemma RunFrame(d: Decoder, body: seq<Octet>)
    requires |body| <= BUFFER_SIZE
    ensures Run(d, [FLAG] + EscapeAll(body) + [FLAG]) == FRESH
    ensures Closed(d, [FLAG] + EscapeAll(body) + [FLAG]) == [d.body, body]
  {
    RunFlag(d);
    RunAppend(d, [FLAG], EscapeAll(body));
    RunEscapeAll(body);
    RunAppend(d, [FLAG] + EscapeAll(body), [FLAG]);
    RunFlag(Decoder(body, false));
  }

  lemma DeliverTwo(s: seq<Octet>, t: seq<Octet>)
    ensures AllDelivered([s, t]) == Delivered(s) + Delivered(t)
    ensures AllDelivered([s]) == Delivered(s)
  {
    assert [s, t][1..] == [t] && [t][1..] == [] && [s][1..] == [];
    assert AllDelivered([t]) == Delivered(t) + AllDelivered([]);
  }

  lemma CheckedIsDelivered(payload: seq<Octet>)
    requires payload != []
    ensures Delivered(Checked(payload)) == [payload]
  {
    SentFrameAccepted(payload);
    assert Checked(payload)[..|payload|] == payload;
  }

  // Reading one encoded payload, from any state.
  lemma DecodeEncoded(d: Decoder, payload: seq<Octet>)
    requires 1 <= |payload| <= BUFFER_SIZE - 2
    ensures Run(d, Encode(payload)) == FRESH
    ensures Decode(d, Encode(payload)) == Delivered(d.body) + [payload]
  {
    RunFrame(d, Checked(payload));
    DeliverTwo(d.body, Checked(payload));
    CheckedIsDelivered(payload);
  }

  ghost predicate Sendable(payloads: seq<seq<Octet>>) {
    forall i :: 0 <= i < |payloads| ==> 1 <= |payloads[i]| <= BUFFER_SIZE - 2
  }

  lemma NothingFromFresh()
    ensures Delivered([]) == []
  {}

  // Two stretches of a stream, the second read from where the first left off.
  lemma DecodeInTurn(d: Decoder, s: seq<Octet>, t: seq<Octet>, a: seq<seq<Octet>>, b: seq<seq<Octet>>)
    requires Decode(d, s) == a && Decode(Run(d, s), t) == b
    ensures Decode(d, s + t) == a + b
    ensures Run(d, s + t) == Run(Run(d, s), t)
  {
    DecodeAppend(d, s, t);
    RunAppend(d, s, t);
  }

  lemma {:induction false} DecodeFromFresh(payloads: seq<seq<Octet>>)
    requires Sendable(payloads)
    ensures Run(FRESH, EncodeAll(payloads)) == FRESH
    ensures Decode(FRESH, EncodeAll(payloads)) == payloads
    decreases |payloads|
  {
    if payloads != [] {
      var first, rest := payloads[0], payloads[1..];
      DecodeEncoded(FRESH, first);
      NothingFromFresh();
      DecodeFromFresh(rest);
      DecodeInTurn(FRESH, Encode(first), EncodeAll(rest), [first], rest);
      assert payloads == [first] + rest;
    }
  }

  lemma FlagFirst(payload: seq<Octet>)
    ensures Encode(payload) == [FLAG] + Encode(payload)[1..]
  {}

  lemma ClosedAfterFlag(d: Decoder, past: seq<Octet>, body: seq<Octet>)
    ensures Run(d, past + ([FLAG] + body)) == Run(FRESH, body)
    ensures Closed(d, past + ([FLAG] + body)) == Closed(d, past + [FLAG]) + Closed(FRESH, body)
  {
    RunFlag(Run(d, past));
    RunAppend(d, past, [FLAG]);
    RunAppend(d, past + [FLAG], body);
    assert past + ([FLAG] + body) == (past + [FLAG]) + body;
  }

  lemma DecodeAfterFlag(d: Decoder, past: seq<Octet>, body: seq<Octet>)
    ensures Decode(d, past + ([FLAG] + body)) == Decode(d, past + [FLAG]) + Decode(FRESH, body)
  {
    ClosedAfterFlag(d, past, body);
    AllDeliveredAppend(Closed(d, past + [FLAG]), Closed(FRESH, body));
  }

  lemma LeadingFlag(body: seq<Octet>)
    ensures Run(FRESH, [FLAG] + body) == Run(FRESH, body)
    ensures Decode(FRESH, [FLAG] + body) == Decode(FRESH, body)
  {
    var stream := [FLAG] + body;
    assert stream[1..] == body;
    assert Closed(FRESH, stream) == [[]] + Closed(FRESH, body);
    assert ([[]] + Closed(FRESH, body))[1..] == Closed(FRESH, body);
    NothingFromFresh();
  }

  // After a flag the past is gone: the receiver reads on as a fresh one would.
  lemma FlagForgets(d: Decoder, past: seq<Octet>, body: seq<Octet>)
    ensures Run(d, past + ([FLAG] + body)) == Run(FRESH, [FLAG] + body)
    ensures Decode(d, past + ([FLAG] + body)) == Decode(d, past + [FLAG]) + Decode(FRESH, [FLAG] + body)
  {
    LeadingFlag(body);
    ClosedAfterFlag(d, past, body);
    DecodeAfterFlag(d, past, body);
  }

  // Whatever came first, the payloads arrive in order and nothing else does,
  // beyond what a single flag would have completed.
  lemma Resynchronises(d: Decoder, garbage: seq<Octet>, payloads: seq<seq<Octet>>)
    requires Sendable(payloads) && payloads != []
    ensures Decode(d, garbage + EncodeAll(payloads)) == Decode(d, garbage + [FLAG]) + payloads
    ensures Run(d, garbage + EncodeAll(payloads)) == FRESH
  {
    var body := EncodeAll(payloads)[1..];
    assert EncodeAll(payloads) == [FLAG] + body by { FlagFirst(payloads[0]); }
    FlagForgets(d, garbage, body);
    DecodeFromFresh(payloads);
  }

  // ---------------------------------------------------------------------------
  // The link in figures
  // ---------------------------------------------------------------------------

  // One octet on the wire: the flag, the escape octet, XON, XOFF and 0xF8 follow an escape octet
  // with bit 0x20 turned over, and no other octet is changed.
  function Stuffed(octet: Octet): seq<Octet> {
    match octet
    case 0x7E => [0x7D, 0x5E]
    case 0x7D => [0x7D, 0x5D]
    case 0x11 => [0x7D, 0x31]
    case 0x13 => [0x7D, 0x33]
    case 0xF8 => [0x7D, 0xD8]
    case _ => [octet]
  }

  function StuffedAll(data: seq<Octet>): seq<Octet> {
    if data == [] then [] else Stuffed(data[0]) + StuffedAll(data[1..])
  }

  lemma EscapeIsStuffed(octet: Octet)
    ensures Escape(octet) == Stuffed(octet)
  {}

  lemma {:induction false} StuffedSnoc(data: seq<Octet>, octet: Octet)
    ensures StuffedAll(data + [octet]) == StuffedAll(data) + Stuffed(octet)
  {
    if data == [] {
      assert (data + [octet])[1..] == [];
    } else {
      assert (data + [octet])[1..] == data[1..] + [octet];
      StuffedSnoc(data[1..], octet);
    }
  }

  lemma {:induction false} EscapeAllIsStuffed(data: seq<Octet>)
    ensures EscapeAll(data) == StuffedAll(data)
  {
    if data != [] {
      var init, last := data[..|data| - 1], data[|data| - 1];
      EscapeAllIsStuffed(init);
      EscapeIsStuffed(last);
      StuffedSnoc(init, last);
      assert data == init + [last];
    }
  }

  // What the sender writes, octet by octet: a flag, the payload, the check octets and a flag.
  lemma EncodeInFigures(payload: seq<Octet>)
    ensures Encode(payload) == [0x7E] + StuffedAll(payload + CheckOctets(Fcs(0xFFFF, payload))) + [0x7E]
  {
    EscapeAllIsStuffed(Checked(payload));
  }

  // The check octets: the complement of the register, low octet first.
  lemma CheckInFigures(fcs: bv16)
    ensures var check := CheckOctets(fcs);
      check[0] as bv16 == !fcs & 0x00FF && (check[1] as bv16) << 8 == !fcs & 0xFF00
  {}

  // What the receiver makes of one octet, or of an escape octet and the one behind it.
  lemma ReceiveInFigures(body: seq<Octet>, octet: Octet)
    ensures Run(Decoder(body, false), [0x7E]) == Decoder([], false)
    ensures Run(Decoder(body, false), [0x7D, 0x7E]) == Decoder([], false)
    ensures octet != 0x7E && octet != 0x7D ==>
      Run(Decoder(body, false), [octet]) == if |body| < 1300 then Decoder(body + [octet], false) else Decoder([], false)
    ensures octet != 0x7E ==>
      Run(Decoder(body, false), [0x7D, octet])
        == if |body| < 1300 then Decoder(body + [octet ^ 0x20], false) else Decoder([], false)
  {
    var d := Decoder(body, false);
    RunFlag(d);
    RunFlag(Decoder(body, true));
    RunAppend(d, [ESC], [octet]);
    RunAppend(d, [ESC], [FLAG]);
    assert [ESC] + [octet] == [0x7D, octet] && [ESC] + [FLAG] == [0x7D, 0x7E];
    RunOne(d, ESC);
    if octet != FLAG {
      RunOne(d, octet);
      RunOne(Decoder(body, true), octet);
    }
  }

  // ---------------------------------------------------------------------------
  // Exactly what comes through
  // ---------------------------------------------------------------------------

  lemma {:induction false} ClosedLengths(d: Decoder, stream: seq<Octet>)
    requires |d.body| <= BUFFER_SIZE
    ensures |Run(d, stream).body| <= BUFFER_SIZE
    ensures forall i :: 0 <= i < |Closed(d, stream)| ==> |Closed(d, stream)[i]| <= BUFFER_SIZE
    decreases |stream|
  {
    if stream != [] {
      ClosedLengths(Step(d, stream[0]), stream[1..]);
    }
  }

  lemma {:induction false} DeliveredLengths(bodies: seq<seq<Octet>>)
    requires forall i :: 0 <= i < |bodies| ==> |bodies[i]| <= BUFFER_SIZE
    ensures Sendable(AllDelivered(bodies))
  {
    if bodies != [] {
      DeliveredLengths(bodies[1..]);
    }
  }

  // The exact reach of the round trip.
  lemma RoundTripIff(payload: seq<Octet>)
    ensures Decode(FRESH, Encode(payload)) == [payload] <==> 1 <= |payload| <= BUFFER_SIZE - 2
  {
    if 1 <= |payload| <= BUFFER_SIZE - 2 {
      DecodeEncoded(FRESH, payload);
      NothingFromFresh();
    }
    ClosedLengths(FRESH, Encode(payload));
    DeliveredLengths(Closed(FRESH, Encode(payload)));
    var out := Decode(FRESH, Encode(payload));
    assert out == [payload] ==> out[0] == payload;
  }

  // A damaged body is not delivered: bursts of up to 16 bits, and odd numbers of flipped bits.
  lemma DamageNotDelivered(d: Decoder, payload: seq<Octet>, got: seq<Octet>, start: nat, width: nat)
    requires |got| == |payload| + 2 <= BUFFER_SIZE
    requires
      || (width <= 16 && DifferWithin(Bits(Checked(payload)), Bits(got), start, width))
      || Differences(Bits(Checked(payload)), Bits(got)) % 2 == 1
    ensures Run(d, [FLAG] + EscapeAll(got) + [FLAG]) == FRESH
    ensures Decode(d, [FLAG] + EscapeAll(got) + [FLAG]) == Delivered(d.body)
  {
    DamageRejected(payload, got, start, width);
    RunFrame(d, got);
    DeliverTwo(d.body, got);
  }

  lemma DamageRejected(payload: seq<Octet>, got: seq<Octet>, start: nat, width: nat)
    requires |got| == |payload| + 2
    requires
      || (width <= 16 && DifferWithin(Bits(Checked(payload)), Bits(got), start, width))
      || Differences(Bits(Checked(payload)), Bits(got)) % 2 == 1
    ensures Delivered(got) == []
  {
    SentFrameAccepted(payload);
    if Differences(Bits(Checked(payload)), Bits(got)) % 2 == 1 {
      OddChangeDetected(Checked(payload), got);
    } else {
      BurstDetected(Checked(payload), got, start, width);
    }
  }

  // ---------------------------------------------------------------------------
  // Reference: split at the flags, then unescape each piece
  // ---------------------------------------------------------------------------

  // Where the first flag is, or the length of a stream that has none.
  function FirstFlag(stream: seq<Octet>): (i: nat)
    ensures i <= |stream|
    ensures FLAG !in stream[..i]
    ensures i < |stream| ==> stream[i] == FLAG
  {
    if stream == [] || stream[0] == FLAG then 0 else 1 + FirstFlag(stream[1..])
  }

  // The pieces of the stream that a flag ends.
  function Pieces(stream: seq<Octet>): seq<seq<Octet>>
    decreases |stream|
  {
    var i := FirstFlag(stream);
    if i == |stream| then [] else [stream[..i]] + Pieces(stream[i + 1..])
  }

  function Unescape(piece: seq<Octet>): seq<Octet>
    decreases |piece|
  {
    if piece == [] || piece == [ESC] then []
    else if piece[0] == ESC then [Flip(piece[1])] + Unescape(piece[2..])
    else [piece[0]] + Unescape(piece[1..])
  }

  // What is left of a body after every overflow has started the buffer over.
  function Kept(body: seq<Octet>): seq<Octet> {
    body[|body| - |body| % (BUFFER_SIZE + 1)..]
  }

  function Bodies(pieces: seq<seq<Octet>>): seq<seq<Octet>> {
    if pieces == [] then [] else [Kept(Unescape(pieces[0]))] + Bodies(pieces[1..])
  }

  lemma KeptWhole(body: seq<Octet>)
    requires |body| <= BUFFER_SIZE
    ensures Kept(body) == body
  {}

  lemma KeptStep(body: seq<Octet>, octet: Octet, rest: seq<Octet>)
    requires |body| <= BUFFER_SIZE
    ensures Kept(body + ([octet] + rest)) == Kept(Store(body, octet).body + rest)
  {
    if |body| < BUFFER_SIZE {
      assert body + ([octet] + rest) == (body + [octet]) + rest;
    } else {
      var whole := body + ([octet] + rest);
      assert whole[BUFFER_SIZE + 1..] == rest && [] + rest == rest;
      KeptTail(whole, rest);
    }
  }

  // One overflow's worth of octets makes no difference.
  lemma KeptTail(whole: seq<Octet>, rest: seq<Octet>)
    requires |whole| == BUFFER_SIZE + 1 + |rest| && whole[BUFFER_SIZE + 1..] == rest
    ensures Kept(whole) == Kept(rest)
  {
    var n := |rest| % (BUFFER_SIZE + 1);
    OneMoreRound(|rest|);
    assert whole[|whole| - n..] == rest[|rest| - n..];
  }

  lemma OneMoreRound(n: nat)
    ensures (n + 1301) % 1301 == n % 1301
  {}

  lemma RunEscapedPair(body: seq<Octet>, octet: Octet)
    requires octet != FLAG
    ensures Run(Decoder(body, false), [ESC, octet]) == Store(body, Flip(octet))
    ensures Closed(Decoder(body, false), [ESC, octet]) == []
  {
    RunOne(Decoder(body, false), ESC);
    RunOne(Decoder(body, true), octet);
    RunAppend(Decoder(body, false), [ESC], [octet]);
    assert [ESC] + [octet] == [ESC, octet];
  }

  // The first octet of a piece is stored, then the rest is read.
  lemma RunStored(body: seq<Octet>, first: seq<Octet>, octet: Octet, rest: seq<Octet>)
    requires |body| <= BUFFER_SIZE
    requires Run(Decoder(body, false), first) == Store(body, octet) && Closed(Decoder(body, false), first) == []
    requires Run(Store(body, octet), rest).body == Kept(Store(body, octet).body + Unescape(rest))
    requires Closed(Store(body, octet), rest) == []
    ensures Run(Decoder(body, false), first + rest).body == Kept(body + ([octet] + Unescape(rest)))
    ensures Closed(Decoder(body, false), first + rest) == []
  {
    RunAppend(Decoder(body, false), first, rest);
    KeptStep(body, octet, Unescape(rest));
  }

  lemma {:induction false} RunPiece(body: seq<Octet>, piece: seq<Octet>)
    requires |body| <= BUFFER_SIZE && FLAG !in piece
    ensures Run(Decoder(body, false), piece).body == Kept(body + Unescape(piece))
    ensures Closed(Decoder(body, false), piece) == []
    decreases |piece|
  {
    var d := Decoder(body, false);
    if piece == [] || piece == [ESC] {
      if piece == [ESC] {
        RunOne(d, ESC);
      }
      assert body + Unescape(piece) == body;
      KeptWhole(body);
    } else if piece[0] == ESC {
      var x, rest := piece[1], piece[2..];
      RunEscapedPair(body, x);
      RunPiece(Store(body, Flip(x)).body, rest);
      RunStored(body, [ESC, x], Flip(x), rest);
      UnescapePair(x, rest);
      assert piece == [ESC, x] + rest;
    } else {
      var x, rest := piece[0], piece[1..];
      RunOne(d, x);
      RunPiece(Store(body, x).body, rest);
      RunStored(body, [x], x, rest);
      UnescapeOne(x, rest);
      assert piece == [x] + rest;
    }
  }

  lemma UnescapePair(octet: Octet, rest: seq<Octet>)
    ensures Unescape([ESC, octet] + rest) == [Flip(octet)] + Unescape(rest)
  {
    var piece := [ESC, octet] + rest;
    assert piece[2..] == rest && |piece| >= 2;
  }

  lemma UnescapeOne(octet: Octet, rest: seq<Octet>)
    requires octet != ESC
    ensures Unescape([octet] + rest) == [octet] + Unescape(rest)
  {
    var piece := [octet] + rest;
    assert piece[0] == octet && piece[1..] == rest;
    assert [ESC][0] == ESC && piece != [ESC];
  }

  // Reading octet by octet closes exactly the bodies of the reference, for every stream.
  lemma {:induction false} ClosedIsReference(stream: seq<Octet>)
    ensures Closed(FRESH, stream) == Bodies(Pieces(stream))
    decreases |stream|
  {
    var i := FirstFlag(stream);
    if i == |stream| {
      assert stream[..i] == stream;
      RunPiece([], stream);
    } else {
      var piece, rest := stream[..i], stream[i + 1..];
      assert stream == piece + ([FLAG] + rest);
      RunPiece([], piece);
      RunAppend(FRESH, piece, [FLAG] + rest);
      RunFlag(Run(FRESH, piece));
      RunAppend(Run(FRESH, piece), [FLAG], rest);
      ClosedIsReference(rest);
      assert [] + Unescape(piece) == Unescape(piece);
    }
  }

  lemma DecodeIsReference(stream: seq<Octet>)
    ensures Decode(FRESH, stream) == AllDelivered(Bodies(Pieces(stream)))
  {
    ClosedIsReference(stream);
  }

  // ---------------------------------------------------------------------------
  // Between its flags an encoded frame carries no flow-control octet and no flag
  // ---------------------------------------------------------------------------

  predicate Transparent(data: seq<Octet>) {
    0x7E !in data && 0x11 !in data && 0x13 !in data && 0xF8 !in data
  }

  lemma {:induction false} EscapedIsTransparent(data: seq<Octet>)
    ensures Transparent(EscapeAll(data))
  {
    if data != [] {
      EscapedIsTransparent(data[..|data| - 1]);
      OneTransparent(data[|data| - 1]);
    }
  }

  lemma OneTransparent(octet: Octet)
    ensures Transparent(Escape(octet))
  {
    if NeedsEscape(octet) {
      EscapedIsPlain(octet);
    }
  }

  function Escapes(data: seq<Octet>): nat {
    if data == [] then 0 else Escapes(data[..|data| - 1]) + (if NeedsEscape(data[|data| - 1]) then 1 else 0)
  }

  lemma {:induction false} EscapedLength(data: seq<Octet>)
    ensures |EscapeAll(data)| == |data| + Escapes(data)
    ensures Escapes(data) <= |data|
  {
    if data != [] {
      EscapedLength(data[..|data| - 1]);
    }
  }

  // How long an encoded frame is: its octets, the check octets, the flags and one more for each
  // octet that needs escaping.
  lemma EncodedLength(payload: seq<Octet>)
    ensures |Encode(payload)| == |payload| + 4 + Escapes(Checked(payload))
    ensures |Encode(payload)| <= 2 * |payload| + 6
  {
    EscapedLength(Checked(payload));
  }
}
