/** What the receiver's frame check is guaranteed to catch. */
module ErrorDetection {
  import opened Crc

  // ---------------------------------------------------------------------------
  // Clocking is injective
  // ---------------------------------------------------------------------------

  lemma ClockInjective(r: Register, s: Register, bit: bool)
    requires Clock(r, bit) == Clock(s, bit)
    ensures r == s
  {
    var x, y := Clock(r, bit), Clock(s, bit);
    assert x[15] == (r[0] != bit) && y[15] == (s[0] != bit);
    forall i | 0 <= i < 16
      ensures r[i] == s[i]
    {
      if i > 0 {
        assert x[i - 1] == y[i - 1];
      }
    }
  }

  lemma {:induction false} ClockAllInjective(r: Register, s: Register, bits: seq<bool>)
    requires ClockAll(r, bits) == ClockAll(s, bits)
    ensures r == s
    decreases |bits|
  {
    if bits != [] {
      ClockAllInjective(Clock(r, bits[0]), Clock(s, bits[0]), bits[1..]);
      ClockInjective(r, s, bits[0]);
    }
  }

  lemma {:induction false} IdleInjective(r: Register, s: Register, n: nat)
    requires Idle(r, n) == Idle(s, n)
    ensures r == s
    decreases n
  {
    if n > 0 {
      IdleInjective(Clock(r, false), Clock(s, false), n - 1);
      ClockInjective(r, s, false);
    }
  }

  // Two registers that meet after k < 16 clocks already agreed from place k up.
  lemma {:induction false} MeetingRegistersAgree(r: Register, s: Register, u: seq<bool>, v: seq<bool>)
    requires |u| == |v| <= 15
    requires ClockAll(r, u) == ClockAll(s, v)
    ensures forall i :: |u| <= i < 16 ==> r[i] == s[i]
    decreases |u|
  {
    if u != [] {
      var x, y := Clock(r, u[0]), Clock(s, v[0]);
      MeetingRegistersAgree(x, y, u[1..], v[1..]);
      assert x[15] == y[15];
      forall i | |u| <= i < 16
        ensures r[i] == s[i]
      {
        assert x[i - 1] == y[i - 1];
      }
    }
  }

  // From one state, distinct windows of at most 16 bits lead to distinct states.
  lemma {:induction false} WindowInjective(r: Register, u: seq<bool>, v: seq<bool>)
    requires |u| == |v| <= 16
    requires ClockAll(r, u) == ClockAll(r, v)
    ensures u == v
    decreases |u|
  {
    if u != [] {
      if u[0] == v[0] {
        WindowInjective(Clock(r, u[0]), u[1..], v[1..]);
        assert u == [u[0]] + u[1..] && v == [v[0]] + v[1..];
      } else {
        var x, y := Clock(r, u[0]), Clock(r, v[0]);
        assert x[15] != y[15];
        MeetingRegistersAgree(x, y, u[1..], v[1..]);
        assert false;
      }
    }
  }

  // The bits differ somewhere, and only in the given window.
  ghost predicate DifferWithin(u: seq<bool>, v: seq<bool>, start: nat, width: nat) {
    && |u| == |v| && start + width <= |u|
    && u != v
    && u[..start] == v[..start]
    && u[start + width..] == v[start + width..]
  }

  lemma BurstChangesRegister(r: Register, u: seq<bool>, v: seq<bool>, start: nat, width: nat)
    requires DifferWithin(u, v, start, width) && width <= 16
    ensures ClockAll(r, u) != ClockAll(r, v)
  {
    var s, t := u[start..start + width], v[start..start + width];
    assert u == u[..start] + (s + u[start + width..]);
    assert v == v[..start] + (t + v[start + width..]);
    ClockAllAppend(r, u[..start], s + u[start + width..]);
    ClockAllAppend(r, v[..start], t + v[start + width..]);
    var mid := ClockAll(r, u[..start]);
    ClockAllAppend(mid, s, u[start + width..]);
    ClockAllAppend(mid, t, v[start + width..]);
    if ClockAll(r, u) == ClockAll(r, v) {
      ClockAllInjective(ClockAll(mid, s), ClockAll(mid, t), u[start + width..]);
      WindowInjective(mid, s, t);
      assert false;
    }
  }

  // ---------------------------------------------------------------------------
  // Parity
  // ---------------------------------------------------------------------------

  function Parity(bits: seq<bool>): bool {
    if bits == [] then false else bits[0] != Parity(bits[1..])
  }

  lemma {:induction false} ParityOfSum(u: seq<bool>, v: seq<bool>, sum: seq<bool>)
    requires |u| == |v| == |sum|
    requires forall i :: 0 <= i < |u| ==> sum[i] == (u[i] != v[i])
    ensures Parity(sum) == (Parity(u) != Parity(v))
  {
    if u != [] {
      ParityOfSum(u[1..], v[1..], sum[1..]);
    }
  }

  lemma {:induction false} ParityAppend(u: seq<bool>, v: seq<bool>)
    ensures Parity(u + v) == (Parity(u) != Parity(v))
  {
    if u == [] {
      assert u + v == v;
    } else {
      assert (u + v)[1..] == u[1..] + v;
      ParityAppend(u[1..], v);
    }
  }

  lemma {:induction false} ParityOfGap(n: nat)
    ensures !Parity(seq(n, _ => false))
  {
    if n > 0 {
      var gap := seq(n, _ => false);
      assert gap[1..] == seq(n - 1, _ => false);
      ParityOfGap(n - 1);
    }
  }

  // The generator has an even number of terms: its three taps and the bit itself.
  lemma TapParity(taps: seq<bool>)
    requires taps == seq(16, i => Tap(i))
    ensures Parity(taps)
  {
    var a, b, c := seq(3, _ => false) + [true], seq(6, _ => false) + [true], seq(4, _ => false) + [true];
    ParityOfGap(3);
    ParityOfGap(6);
    ParityOfGap(4);
    ParityAppend(seq(3, _ => false), [true]);
    ParityAppend(seq(6, _ => false), [true]);
    ParityAppend(seq(4, _ => false), [true]);
    ParityAppend(a, b + c);
    ParityAppend(b, c);
    assert taps == a + (b + c);
  }

  // So a clock adds exactly its bit to the register's parity.
  lemma ClockParity(r: Register, bit: bool)
    ensures Parity(Clock(r, bit)) == (Parity(r) != bit)
  {
    var moved := r[1..] + [false];
    ParityAppend(r[1..], [false]);
    if r[0] != bit {
      var taps := seq(16, i => Tap(i));
      TapParity(taps);
      ParityOfSum(moved, taps, Clock(r, bit));
    } else {
      assert Clock(r, bit) == moved;
    }
  }

  lemma {:induction false} ClockAllParity(r: Register, bits: seq<bool>)
    ensures Parity(ClockAll(r, bits)) == (Parity(r) != Parity(bits))
    decreases |bits|
  {
    if bits != [] {
      ClockParity(r, bits[0]);
      ClockAllParity(Clock(r, bits[0]), bits[1..]);
    }
  }

  // How many places two bit strings differ in.
  function Differences(u: seq<bool>, v: seq<bool>): nat
    requires |u| == |v|
  {
    if u == [] then 0 else (if u[0] != v[0] then 1 else 0) + Differences(u[1..], v[1..])
  }

  lemma {:induction false} DifferencesParity(u: seq<bool>, v: seq<bool>)
    requires |u| == |v|
    ensures (Differences(u, v) % 2 == 1) == (Parity(u) != Parity(v))
  {
    if u != [] {
      DifferencesParity(u[1..], v[1..]);
    }
  }

  // ---------------------------------------------------------------------------
  // The receiver's test is a test of the residue
  // ---------------------------------------------------------------------------

  lemma {:induction false} FcsAppend(fcs: bv16, s: seq<Octet>, t: seq<Octet>)
    ensures Fcs(fcs, s + t) == Fcs(Fcs(fcs, s), t)
    decreases |s|
  {
    if s == [] {
      assert s + t == t;
    } else {
      assert (s + t)[1..] == s[1..] + t;
      FcsAppend(Crc16(fcs, s[0]), s[1..], t);
    }
  }

  function Wide(low: Octet, high: Octet): bv16 {
    low as bv16 | (high as bv16 << 8)
  }

  lemma HasWide(low: Octet, high: Octet, mask: bv16, up: bv16)
    requires EightUp(mask, up)
    ensures Has(Wide(low, high), mask) == Has(low as bv16, mask)
    ensures Has(Wide(low, high), up) == Has(high as bv16, mask)
  {}

  lemma WideBits(low: Octet, high: Octet)
    ensures Of(Wide(low, high)) == OctetBits(low) + OctetBits(high)
  {
    var wide, l, h := Of(Wide(low, high)), OctetBits(low), OctetBits(high);
    forall i | 0 <= i < 8
      ensures wide[i] == l[i] && wide[i + 8] == h[i]
    {
      MaskEightUp(i);
      HasWide(low, high, MASKS[i], MASKS[i + 8]);
    }
  }

  lemma WideIsBits(low: Octet, high: Octet, data: seq<Octet>)
    requires data == [low, high]
    ensures Bits(data) == Of(Wide(low, high))
  {
    WideBits(low, high);
    assert data[1..] == [high] && [high][1..] == [];
    assert Bits([high]) == OctetBits(high) + [];
  }

  lemma ClockWhole(r: Register, x: Register, n: nat)
    requires n == 16
    ensures ClockAll(r, x) == Idle(Xor(r, x), n)
  {
    assert x[..n] == x;
    ClocksAreIdle(r, x, n);
    NothingLeft(ClockAll(r, x), x);
  }

  lemma FcsOfWord(fcs: bv16, data: seq<Octet>, word: bv16, n: nat)
    requires Bits(data) == Of(word) && n == 16
    ensures Of(Fcs(fcs, data)) == Idle(Of(fcs ^ word), n)
  {
    FcsIsClockAll(fcs, data);
    ClockWhole(Of(fcs), Of(word), n);
    OfXor(fcs, word);
  }

  lemma TwoOctets(fcs: bv16, low: Octet, high: Octet, data: seq<Octet>, n: nat)
    requires data == [low, high] && n == 16
    ensures Of(Fcs(fcs, data)) == Idle(Of(fcs ^ Wide(low, high)), n)
  {
    WideIsBits(low, high, data);
    FcsOfWord(fcs, data, Wide(low, high), n);
  }

  lemma NothingLeft(r: Register, x: Register)
    ensures Xor(r, Down(x, 16)) == r
  {}

  lemma SixteenShifts()
    ensures ShiftN(0xFFFF, 16) == 0xF0B8
  {
    assert ShiftN(0xFFFF, 16) == ShiftN(0xF87, 8);
  }

  lemma GoodResidue(n: nat)
    requires n == 16
    ensures Idle(Of(0xFFFF), n) == Of(GOOD_FCS)
  {
    SixteenShifts();
    OfShiftN(0xFFFF, n);
  }

  predicate IsCheck(fcs: bv16, low: Octet, high: Octet) {
    low as bv16 == (fcs ^ 0xFFFF) & 0xFF && high as bv16 == (fcs ^ 0xFFFF) >> 8
  }

  lemma CheckWord(fcs: bv16, low: Octet, high: Octet)
    ensures fcs ^ Wide(low, high) == 0xFFFF <==> IsCheck(fcs, low, high)
  {}

  lemma ResidueOfTwo(fcs: bv16, low: Octet, high: Octet, data: seq<Octet>, n: nat)
    requires data == [low, high] && n == 16
    ensures Fcs(fcs, data) == GOOD_FCS <==> IsCheck(fcs, low, high)
  {
    var word, after := fcs ^ Wide(low, high), Fcs(fcs, data);
    TwoOctets(fcs, low, high, data, n);
    GoodResidue(n);
    CheckWord(fcs, low, high);
    if after == GOOD_FCS {
      IdleInjective(Of(word), Of(0xFFFF), n);
      OfInjective(word, 0xFFFF);
    }
    if word == 0xFFFF {
      OfInjective(after, GOOD_FCS);
    }
  }

  lemma ResidueOfCheck(fcs: bv16, check: seq<Octet>)
    requires |check| == 2
    ensures Fcs(fcs, check) == GOOD_FCS <==> check == CheckOctets(fcs)
  {
    var low, high := check[0], check[1];
    assert check == [low, high];
    ResidueOfTwo(fcs, low, high, check, 16);
    CheckOctetsAre(fcs, low, high);
  }

  lemma CheckOctetsAre(fcs: bv16, low: Octet, high: Octet)
    ensures [low, high] == CheckOctets(fcs) <==> IsCheck(fcs, low, high)
  {}

  // Comparing with the trailing octets is the same test as looking for the residue.
  lemma AcceptsIffGoodResidue(frame: seq<Octet>)
    requires |frame| >= 2
    ensures Accepts(frame) <==> Fcs(INITIAL_FCS, frame) == GOOD_FCS
  {
    var payload, check := frame[..|frame| - 2], frame[|frame| - 2..];
    assert frame == payload + check;
    FcsAppend(INITIAL_FCS, payload, check);
    ResidueOfCheck(Fcs(INITIAL_FCS, payload), check);
  }

  // The same test on the bit-by-bit register.
  lemma AcceptsIffRegister(frame: seq<Octet>)
    requires |frame| >= 2
    ensures Accepts(frame) <==> ClockAll(Of(INITIAL_FCS), Bits(frame)) == Of(GOOD_FCS)
  {
    AcceptsIffGoodResidue(frame);
    FcsIsClockAll(INITIAL_FCS, frame);
    if Of(Fcs(INITIAL_FCS, frame)) == Of(GOOD_FCS) {
      OfInjective(Fcs(INITIAL_FCS, frame), GOOD_FCS);
    }
  }

  // The sender's own octets pass.
  lemma SentFrameAccepted(payload: seq<Octet>)
    ensures Accepts(payload + CheckOctets(Fcs(INITIAL_FCS, payload)))
  {
    var frame := payload + CheckOctets(Fcs(INITIAL_FCS, payload));
    assert frame[..|frame| - 2] == payload;
  }

  // ---------------------------------------------------------------------------
  // What is caught
  // ---------------------------------------------------------------------------

  // Every change confined to 16 consecutive bits of payload and check octets.
  lemma BurstDetected(sent: seq<Octet>, got: seq<Octet>, start: nat, width: nat)
    requires Accepts(sent) && |got| == |sent|
    requires width <= 16 && DifferWithin(Bits(sent), Bits(got), start, width)
    ensures !Accepts(got)
  {
    AcceptsIffRegister(sent);
    AcceptsIffRegister(got);
    BurstChangesRegister(Of(INITIAL_FCS), Bits(sent), Bits(got), start, width);
  }

  // Every change of an odd number of bits, anywhere in the frame.
  lemma OddChangeDetected(sent: seq<Octet>, got: seq<Octet>)
    requires Accepts(sent) && |got| == |sent|
    requires Differences(Bits(sent), Bits(got)) % 2 == 1
    ensures !Accepts(got)
  {
    AcceptsIffRegister(sent);
    AcceptsIffRegister(got);
    DifferencesParity(Bits(sent), Bits(got));
    ClockAllParity(Of(INITIAL_FCS), Bits(sent));
    ClockAllParity(Of(INITIAL_FCS), Bits(got));
  }

  lemma {:induction false} BitsAppend(s: seq<Octet>, t: seq<Octet>)
    ensures Bits(s + t) == Bits(s) + Bits(t)
  {
    if s == [] {
      assert s + t == t;
    } else {
      assert (s + t)[1..] == s[1..] + t;
      BitsAppend(s[1..], t);
    }
  }

  lemma WidenInjective(a: Octet, b: Octet)
    requires a as bv16 == b as bv16
    ensures a == b
  {}

  lemma OctetBitsInjective(a: Octet, b: Octet)
    requires OctetBits(a) == OctetBits(b)
    ensures a == b
  {
    WideBits(a, 0);
    WideBits(b, 0);
    OfInjective(Wide(a, 0), Wide(b, 0));
    NarrowWide(a);
    NarrowWide(b);
    WidenInjective(a, b);
  }

  lemma NarrowWide(a: Octet)
    ensures Wide(a, 0) == a as bv16
  {}

  lemma {:induction false} BitsInjective(s: seq<Octet>, t: seq<Octet>)
    requires |s| == |t| && Bits(s) == Bits(t)
    ensures s == t
  {
    if s != [] {
      assert Bits(s)[..8] == OctetBits(s[0]) && Bits(t)[..8] == OctetBits(t[0]);
      assert Bits(s)[8..] == Bits(s[1..]) && Bits(t)[8..] == Bits(t[1..]);
      OctetBitsInjective(s[0], t[0]);
      BitsInjective(s[1..], t[1..]);
      assert s == [s[0]] + s[1..] && t == [t[0]] + t[1..];
    }
  }

  lemma OneWindow(a: seq<bool>, u: seq<bool>, v: seq<bool>, b: seq<bool>)
    requires |u| == |v| && u != v
    ensures DifferWithin(a + (u + b), a + (v + b), |a|, |u|)
  {
    var s, t := a + (u + b), a + (v + b);
    assert u == s[|a|..|a| + |u|] && v == t[|a|..|a| + |v|];
  }

  lemma OneOctetWindow(a: seq<Octet>, u: seq<Octet>, v: seq<Octet>, b: seq<Octet>)
    requires |u| == |v| && u != v
    ensures DifferWithin(Bits(a + (u + b)), Bits(a + (v + b)), 8 * |a|, 8 * |u|)
  {
    BitsAppend(a, u + b);
    BitsAppend(u, b);
    BitsAppend(a, v + b);
    BitsAppend(v, b);
    if Bits(u) == Bits(v) {
      BitsInjective(u, v);
      assert false;
    }
    OneWindow(Bits(a), Bits(u), Bits(v), Bits(b));
  }

  // In particular every change of one octet, or of two adjacent ones.
  lemma AdjacentOctetsDetected(before: seq<Octet>, sent: seq<Octet>, got: seq<Octet>, after: seq<Octet>)
    requires |sent| == |got| <= 2 && sent != got
    requires Accepts(before + (sent + after))
    ensures !Accepts(before + (got + after))
  {
    OneOctetWindow(before, sent, got, after);
    BurstDetected(before + (sent + after), before + (got + after), 8 * |before|, 8 * |sent|);
  }
}
