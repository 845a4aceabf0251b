/** How much room the sender's escaped buffer has. It holds twice the frame buffer, and nothing
    tests that an encoded frame fits into it.
 */
module EscapedBuffer {
  import opened Crc
  import opened Hdlc

  const ROOM: nat := 2 * BUFFER_SIZE

  predicate HasRoom(payload: seq<Octet>) {
    |Encode(payload)| <= ROOM
  }

  // Exactly which payloads fit: those with few enough octets that need escaping.
  lemma HasRoomIff(payload: seq<Octet>)
    ensures HasRoom(payload) <==> |payload| + 4 + Escapes(Checked(payload)) <= ROOM
    ensures |payload| <= BUFFER_SIZE - 3 ==> HasRoom(payload)
  {
    EncodedLength(payload);
  }

  ghost predicate AllNeedEscape(data: seq<Octet>) {
    forall i :: 0 <= i < |data| ==> NeedsEscape(data[i])
  }

  lemma {:induction false} AllEscapes(data: seq<Octet>)
    requires AllNeedEscape(data)
    ensures Escapes(data) == |data|
  {
    if data != [] { AllEscapes(data[..|data| - 1]); }
  }

  lemma {:induction false} EscapesAppend(s: seq<Octet>, t: seq<Octet>)
    ensures Escapes(s + t) == Escapes(s) + Escapes(t)
    decreases |t|
  {
    if t == [] {
      assert s + t == s;
    } else {
      var init := t[..|t| - 1];
      assert (s + t)[..|s + t| - 1] == s + init;
      EscapesAppend(s, init);
    }
  }

  // A payload of reserved octets only.
  lemma ReservedLength(payload: seq<Octet>)
    requires AllNeedEscape(payload)
    ensures |Encode(payload)| == 2 * |payload| + 4 + Escapes(CheckOctets(Fcs(INITIAL_FCS, payload)))
  {
    EncodedLength(payload);
    EscapesAppend(payload, CheckOctets(Fcs(INITIAL_FCS, payload)));
    AllEscapes(payload);
  }

  // From BUFFER_SIZE - 1 octets on, a payload of flags does not fit.
  lemma FlagsOverrun(n: nat)
    requires n >= BUFFER_SIZE - 1
    ensures !HasRoom(seq(n, _ => FLAG))
  {
    ReservedLength(seq(n, _ => FLAG));
  }

  /* At BUFFER_SIZE - 2 octets it takes reserved octets only and a check octet that is reserved as
     well. Six reserved octets lead the CRC back to its start, so that a payload of this length can
     be made of them, with two more to choose the check octets. */

  const LOOP: seq<Octet> := [SPECIAL, SPECIAL, ESC, SPECIAL, FLAG, XOFF]
  const TAIL: seq<Octet> := [XON, SPECIAL]

  lemma FirstSteps()
    ensures Crc16(0xFFFF, 0xF8) == 0x7440 && Crc16(0x7440, 0xF8) == 0x39B7
  {
  }

  lemma MiddleSteps()
    ensures Crc16(0x39B7, 0x7D) == 0x696F && Crc16(0x696F, 0xF8) == 0xE05F
  {
  }

  lemma LastSteps()
    ensures Crc16(0xE05F, 0x7E) == 0x306B && Crc16(0x306B, 0x13) == 0xFFFF
  {
  }

  lemma TailSteps()
    ensures Crc16(0xFFFF, 0x11) == 0x0E8F && Crc16(0x0E8F, 0xF8) == 0x0736
  {
  }

  lemma FcsNext(fcs: bv16, octet: Octet, rest: seq<Octet>)
    ensures Fcs(fcs, [octet] + rest) == Fcs(Crc16(fcs, octet), rest)
  {
    assert ([octet] + rest)[1..] == rest;
  }

  lemma LoopReturns(fcs: bv16, rest: seq<Octet>)
    requires fcs == 0xFFFF
    ensures Fcs(fcs, LOOP + rest) == Fcs(fcs, rest)
  {
    FirstSteps();
    MiddleSteps();
    LastSteps();
    var r1 := [XOFF] + rest;
    var r2 := [FLAG] + r1;
    var r3 := [SPECIAL] + r2;
    var r4 := [ESC] + r3;
    var r5 := [SPECIAL] + r4;
    FcsNext(0xFFFF, SPECIAL, r5);
    FcsNext(0x7440, SPECIAL, r4);
    FcsNext(0x39B7, ESC, r3);
    FcsNext(0x696F, SPECIAL, r2);
    FcsNext(0xE05F, FLAG, r1);
    FcsNext(0x306B, XOFF, rest);
    assert LOOP + rest == [SPECIAL] + r5;
  }

  function Repeat(part: seq<Octet>, k: nat): (s: seq<Octet>)
    ensures |s| == |part| * k
  {
    if k == 0 then [] else part + Repeat(part, k - 1)
  }

  lemma {:induction false} RepeatReserved(part: seq<Octet>, k: nat)
    requires AllNeedEscape(part)
    ensures AllNeedEscape(Repeat(part, k))
  {
    if k > 0 { RepeatReserved(part, k - 1); }
  }

  // Reading `part` leaves the CRC as it is.
  ghost predicate Restores(fcs: bv16, part: seq<Octet>) {
    forall rest: seq<Octet> :: Fcs(fcs, part + rest) == Fcs(fcs, rest)
  }

  lemma {:induction false} RepeatRestores(fcs: bv16, part: seq<Octet>, k: nat, rest: seq<Octet>)
    requires Restores(fcs, part)
    ensures Fcs(fcs, Repeat(part, k) + rest) == Fcs(fcs, rest)
    decreases k
  {
    if k == 0 {
      assert Repeat(part, k) + rest == rest;
    } else {
      RepeatSplits(part, k, rest);
      assert Fcs(fcs, part + (Repeat(part, k - 1) + rest)) == Fcs(fcs, Repeat(part, k - 1) + rest);
      RepeatRestores(fcs, part, k - 1, rest);
    }
  }

  lemma RepeatSplits(part: seq<Octet>, k: nat, rest: seq<Octet>)
    requires k > 0
    ensures Repeat(part, k) + rest == part + (Repeat(part, k - 1) + rest)
  {
    assert Repeat(part, k) == part + Repeat(part, k - 1);
  }

  lemma LoopRestores()
    ensures Restores(INITIAL_FCS, LOOP)
  {
    forall rest: seq<Octet> ensures Fcs(INITIAL_FCS, LOOP + rest) == Fcs(INITIAL_FCS, rest) {
      LoopReturns(INITIAL_FCS, rest);
    }
  }

  lemma TailCheck()
    ensures Fcs(0xFFFF, TAIL) == 0x0736
    ensures Escapes(CheckOctets(0x0736)) >= 1
  {
    TailSteps();
    FcsNext(0xFFFF, XON, [SPECIAL]);
    FcsNext(0x0E8F, SPECIAL, []);
    assert TAIL == [XON] + [SPECIAL] && [SPECIAL] + [] == [SPECIAL];
    var check := CheckOctets(0x0736);
    assert check[1] == SPECIAL;
    assert check[..1] + [check[1]] == check;
  }

  function Tightest(): (payload: seq<Octet>)
    ensures |payload| == BUFFER_SIZE - 2
  {
    Repeat(LOOP, 216) + TAIL
  }

  lemma TightestOverruns()
    ensures !HasRoom(Tightest())
  {
    var payload := Tightest();
    RepeatReserved(LOOP, 216);
    assert AllNeedEscape(payload);
    LoopRestores();
    RepeatRestores(INITIAL_FCS, LOOP, 216, TAIL);
    TailCheck();
    ReservedLength(payload);
  }

  // All payloads of a length fit exactly when it is at most BUFFER_SIZE - 3, although the slot
  // takes commands of up to BUFFER_SIZE - 1 octets.
  lemma AllHaveRoomIff(n: nat)
    ensures (forall payload: seq<Octet> :: |payload| == n ==> HasRoom(payload)) <==> n <= BUFFER_SIZE - 3
  {
    if n <= BUFFER_SIZE - 3 {
      forall payload: seq<Octet> | |payload| == n ensures HasRoom(payload) { HasRoomIff(payload); }
    } else if n == BUFFER_SIZE - 2 {
      TightestOverruns();
    } else {
      FlagsOverrun(n);
      assert |seq(n, _ => FLAG)| == n;
    }
  }
}
