/** The parts of Spinel's data packing that the host uses: little-endian integers, packed integers,
    text, blocks with a 16-bit length, and structs.

    Data packing is section 3 of draft-rquattle-spinel-unified; limits and early exits are those
    of the library.
 */
module Spinel {
  import opened Options

  type Byte = x: int | 0 <= x < 0x100
  type U8 = x: int | 0 <= x < 0x100
  type U16 = x: int | 0 <= x < 0x1_0000
  type U32 = x: int | 0 <= x < 0x1_0000_0000
  type U64 = x: int | 0 <= x < 0x1_0000_0000_0000_0000

  const MAX_PACK_LENGTH := 32767
  const FRAME_MAX_SIZE := 1300
  const MAX_UINT_PACKED := 2097151

  /* Little-endian integers. */

  function Pow256(n: nat): nat {
    if n == 0 then 1 else 0x100 * Pow256(n - 1)
  }

  function PackUint(v: nat, n: nat): (s: seq<Byte>)
    ensures |s| == n
  {
    if n == 0 then [] else [v % 0x100] + PackUint(v / 0x100, n - 1)
  }

  function UintOf(s: seq<Byte>): nat {
    if s == [] then 0 else s[0] + 0x100 * UintOf(s[1..])
  }

  lemma {:induction false} PackUintRoundTrip(v: nat, n: nat)
    requires v < Pow256(n)
    ensures UintOf(PackUint(v, n)) == v
  {
    if n > 0 { PackUintRoundTrip(v / 0x100, n - 1); }
  }

  lemma {:induction false} UintOfRoundTrip(s: seq<Byte>)
    ensures PackUint(UintOf(s), |s|) == s
  {
    if s != [] {
      UintOfRoundTrip(s[1..]);
      assert UintOf(s) / 0x100 == UintOf(s[1..]) && UintOf(s) % 0x100 == s[0];
    }
  }

  lemma {:induction false} UintOfBound(s: seq<Byte>)
    ensures UintOf(s) < Pow256(|s|)
  {
    if s != [] { UintOfBound(s[1..]); }
  }

  lemma Pow256Values()
    ensures Pow256(1) == 0x100 && Pow256(2) == 0x1_0000 && Pow256(4) == 0x1_0000_0000
    ensures Pow256(8) == 0x1_0000_0000_0000_0000
  {
    assert Pow256(2) == 0x100 * Pow256(1);
    assert Pow256(4) == 0x100 * Pow256(3) && Pow256(3) == 0x100 * Pow256(2);
    assert Pow256(6) == 0x100 * Pow256(5) && Pow256(5) == 0x100 * Pow256(4);
    assert Pow256(8) == 0x100 * Pow256(7) && Pow256(7) == 0x100 * Pow256(6);
  }

  // A fixed-width integer at the head of the data; what follows it is not looked at.
  function UnpackUint(data: seq<Byte>, n: nat): (r: Option<nat>) {
    if n <= |data| <= MAX_PACK_LENGTH then Some(UintOf(data[..n])) else None
  }

  function UnpackU16(data: seq<Byte>): (r: Option<U16>)
    ensures r == UnpackUint(data, 2)
  {
    if 2 <= |data| <= MAX_PACK_LENGTH then
      UintOfBound(data[..2]); Pow256Values();
      Some(UintOf(data[..2]))
    else None
  }

  function UnpackU32(data: seq<Byte>): (r: Option<U32>)
    ensures r == UnpackUint(data, 4)
  {
    if 4 <= |data| <= MAX_PACK_LENGTH then
      UintOfBound(data[..4]); Pow256Values();
      Some(UintOf(data[..4]))
    else None
  }

  function UnpackU64(data: seq<Byte>): (r: Option<U64>)
    ensures r == UnpackUint(data, 8)
  {
    if 8 <= |data| <= MAX_PACK_LENGTH then
      UintOfBound(data[..8]); Pow256Values();
      Some(UintOf(data[..8]))
    else None
  }

  lemma UnpackPacked(v: nat, n: nat, rest: seq<Byte>)
    requires v < Pow256(n)
    ensures UnpackUint(PackUint(v, n) + rest, n) == if n + |rest| <= 32767 then Some(v) else None
  {
    assert (PackUint(v, n) + rest)[..n] == PackUint(v, n);
    PackUintRoundTrip(v, n);
  }

  /* Packed integers: seven bits an octet, least significant first, the top bit on all but the last. */

  function EncodeUint(v: nat): (s: seq<Byte>)
    ensures |s| >= 1
  {
    if v < 0x80 then [v] else [v % 0x80 + 0x80] + EncodeUint(v / 0x80)
  }

  function Pow128(n: nat): nat {
    if n == 0 then 1 else 0x80 * Pow128(n - 1)
  }

  // The octets of the packed integer at the head: at most five, the last without the top bit.
  function UintLength(s: seq<Byte>, limit: nat): (n: Option<nat>)
    ensures n.Some? ==> 1 <= n.value <= |s| && n.value <= limit
  {
    if s == [] || limit == 0 then None
    else if s[0] < 0x80 then Some(1)
    else
      var rest := UintLength(s[1..], limit - 1);
      if rest.Some? then Some(rest.value + 1) else None
  }

  function SevenBits(s: seq<Byte>): nat {
    if s == [] then 0 else s[0] % 0x80 + 0x80 * SevenBits(s[1..])
  }

  // The value and how many octets it took. It is held in 32 bits and must be below the limit.
  function DecodeUint(data: seq<Byte>): (r: Option<(nat, nat)>)
    ensures r.Some? ==> 1 <= r.value.1 <= |data| && r.value.0 < MAX_UINT_PACKED
  {
    var n := UintLength(data, 5);
    if n.None? then None
    else
      var v := SevenBits(data[..n.value]) % 0x1_0000_0000;
      if v < MAX_UINT_PACKED then Some((v, n.value)) else None
  }

  lemma {:induction false} EncodeUintLength(v: nat, limit: nat, rest: seq<Byte>)
    requires limit > 0 && v < Pow128(limit)
    ensures |EncodeUint(v)| <= limit
    ensures UintLength(EncodeUint(v) + rest, limit) == Some(|EncodeUint(v)|)
    decreases limit
  {
    if v >= 0x80 {
      assert Pow128(limit) == 0x80 * Pow128(limit - 1);
      assert Pow128(0) == 1;
      EncodeUintLength(v / 0x80, limit - 1, rest);
      assert (EncodeUint(v) + rest)[1..] == EncodeUint(v / 0x80) + rest;
    }
  }

  lemma {:induction false} SevenBitsOfEncoded(v: nat)
    ensures SevenBits(EncodeUint(v)) == v
    decreases v
  {
    if v >= 0x80 {
      SevenBitsOfEncoded(v / 0x80);
      assert EncodeUint(v)[1..] == EncodeUint(v / 0x80);
    }
  }

  lemma UintRoundTrip(v: nat, rest: seq<Byte>)
    requires v < MAX_UINT_PACKED
    ensures DecodeUint(EncodeUint(v) + rest) == Some((v, |EncodeUint(v)|))
  {
    assert Pow128(2) == 0x80 * Pow128(1) && Pow128(3) == 0x80 * Pow128(2);
    assert Pow128(4) == 0x80 * Pow128(3) && Pow128(5) == 0x80 * Pow128(4);
    EncodeUintLength(v, 5, rest);
    SevenBitsOfEncoded(v);
    assert (EncodeUint(v) + rest)[..|EncodeUint(v)|] == EncodeUint(v);
  }

  // Every other integer is refused, or read as something else if it takes more than 32 bits.
  lemma UintRoundTripIff(v: nat, rest: seq<Byte>)
    ensures DecodeUint(EncodeUint(v) + rest) == Some((v, |EncodeUint(v)|)) <==> v < 2097151
  {
    if v < MAX_UINT_PACKED { UintRoundTrip(v, rest); }
  }

  // One, two or three octets, the lowest seven bits first.
  lemma EncodeUintInFigures(v: nat)
    ensures v < 0x80 ==> EncodeUint(v) == [v]
    ensures 0x80 <= v < 0x4000 ==> EncodeUint(v) == [0x80 + v % 0x80, v / 0x80]
    ensures 0x4000 <= v < 0x20_0000 ==> EncodeUint(v) == [0x80 + v % 0x80, 0x80 + v / 0x80 % 0x80, v / 0x4000]
  {
    if 0x4000 <= v < 0x20_0000 {
      assert v / 0x80 / 0x80 == v / 0x4000;
      assert EncodeUint(v / 0x4000) == [v / 0x4000];
      assert EncodeUint(v / 0x80) == [0x80 + v / 0x80 % 0x80] + EncodeUint(v / 0x4000);
    }
  }

  /* Text: octets up to a zero, which must look like UTF-8. */

  predicate Continuation(b: Byte) {
    0x80 <= b < 0xC0
  }

  // How many continuation octets follow this leading octet.
  function Following(lead: Byte): (n: Option<nat>) {
    if lead < 0x80 then Some(0)
    else if lead < 0xC0 then None
    else if lead < 0xE0 then Some(1)
    else if lead < 0xF0 then Some(2)
    else if lead < 0xF8 then Some(3)
    else None
  }

  // spinel_validate_utf8, on the octets before the zero.
  predicate LooksLikeUtf8(s: seq<Byte>)
    decreases |s|
  {
    s == [] ||
    var n := Following(s[0]);
    && n.Some? && n.value < |s|
    && (forall i :: 1 <= i <= n.value ==> Continuation(s[i]))
    && LooksLikeUtf8(s[1 + n.value..])
  }

  // A number in one of the four forms: of up to 7, 11, 16 or 21 bits.
  datatype Form = One(code: nat) | Two(code: nat) | Three(code: nat) | Four(code: nat)

  predicate Valid(f: Form) {
    match f
    case One(c) => c < 0x80
    case Two(c) => c < 0x800
    case Three(c) => c < 0x1_0000
    case Four(c) => c < 0x20_0000
  }

  function Octets(f: Form): seq<Byte>
    requires Valid(f)
  {
    match f
    case One(c) => [c]
    case Two(c) => [0xC0 + c / 0x40, 0x80 + c % 0x40]
    case Three(c) => [0xE0 + c / 0x1000, 0x80 + c / 0x40 % 0x40, 0x80 + c % 0x40]
    case Four(c) => [0xF0 + c / 0x4_0000, 0x80 + c / 0x1000 % 0x40, 0x80 + c / 0x40 % 0x40, 0x80 + c % 0x40]
  }

  ghost predicate AllValid(forms: seq<Form>) {
    forall i :: 0 <= i < |forms| ==> Valid(forms[i])
  }

  ghost function AllOctets(forms: seq<Form>): seq<Byte>
    requires AllValid(forms)
  {
    if forms == [] then [] else Octets(forms[0]) + AllOctets(forms[1..])
  }

  lemma FormLooksLikeUtf8(f: Form, rest: seq<Byte>)
    requires Valid(f)
    ensures LooksLikeUtf8(Octets(f) + rest) <==> LooksLikeUtf8(rest)
  {
    var s, n := Octets(f) + rest, |Octets(f)|;
    assert s[n..] == rest && s[..n] == Octets(f);
    assert Following(s[0]) == Some(n - 1);
    assert forall i :: 1 <= i < n ==> Continuation(s[i]);
  }

  lemma {:induction false} FormsLookLikeUtf8(forms: seq<Form>)
    requires AllValid(forms)
    ensures LooksLikeUtf8(AllOctets(forms))
  {
    if forms != [] {
      FormsLookLikeUtf8(forms[1..]);
      FormLooksLikeUtf8(forms[0], AllOctets(forms[1..]));
    }
  }

  lemma Digits(high: nat, low: nat)
    requires low < 0x40
    ensures (0x40 * high + low) / 0x40 == high && (0x40 * high + low) % 0x40 == low
    ensures (0x40 * high + low) / 0x1000 == high / 0x40 && (0x40 * high + low) / 0x4_0000 == high / 0x1000
  {
  }

  lemma TwoOctets(a: nat, b: nat)
    requires a < 0x20 && b < 0x40
    ensures Valid(Two(0x40 * a + b)) && Octets(Two(0x40 * a + b)) == [0xC0 + a, 0x80 + b]
  {
    Digits(a, b);
  }

  lemma ThreeOctets(a: nat, b: nat, c: nat)
    requires a < 0x10 && b < 0x40 && c < 0x40
    ensures var f := Three(0x40 * (0x40 * a + b) + c);
      Valid(f) && Octets(f) == [0xE0 + a, 0x80 + b, 0x80 + c]
  {
    Digits(0x40 * a + b, c);
    Digits(a, b);
  }

  lemma FourOctets(a: nat, b: nat, c: nat, d: nat)
    requires a < 8 && b < 0x40 && c < 0x40 && d < 0x40
    ensures var f := Four(0x40 * (0x40 * (0x40 * a + b) + c) + d);
      Valid(f) && Octets(f) == [0xF0 + a, 0x80 + b, 0x80 + c, 0x80 + d]
  {
    Digits(0x40 * (0x40 * a + b) + c, d);
    Digits(0x40 * a + b, c);
    Digits(a, b);
  }

  // The form that a leading octet and its continuation octets make up.
  lemma FormOf(s: seq<Byte>) returns (f: Form)
    requires s != [] && Following(s[0]) == Some(|s| - 1)
    requires forall i :: 1 <= i < |s| ==> Continuation(s[i])
    ensures Valid(f) && Octets(f) == s
  {
    var t: seq<int> := s;
    if |s| == 1 {
      f := One(s[0]);
    } else if |s| == 2 {
      TwoOctets(t[0] - 0xC0, t[1] - 0x80);
      f := Two(0x40 * (t[0] - 0xC0) + (t[1] - 0x80));
    } else if |s| == 3 {
      ThreeOctets(t[0] - 0xE0, t[1] - 0x80, t[2] - 0x80);
      f := Three(0x40 * (0x40 * (t[0] - 0xE0) + (t[1] - 0x80)) + (t[2] - 0x80));
    } else {
      FourOctets(t[0] - 0xF0, t[1] - 0x80, t[2] - 0x80, t[3] - 0x80);
      f := Four(0x40 * (0x40 * (0x40 * (t[0] - 0xF0) + (t[1] - 0x80)) + (t[2] - 0x80)) + (t[3] - 0x80));
    }
  }

  // What is taken for UTF-8 is exactly the texts that are made up of these forms. Forms longer than
  // they need be, and the numbers that are no characters, are taken too.
  lemma {:induction false} LooksLikeUtf8Iff(s: seq<Byte>)
    ensures LooksLikeUtf8(s) <==> exists forms :: AllValid(forms) && AllOctets(forms) == s
    decreases |s|
  {
    forall forms | AllValid(forms) && AllOctets(forms) == s ensures LooksLikeUtf8(s) { FormsLookLikeUtf8(forms); }
    if LooksLikeUtf8(s) {
      var forms := FormsOf(s);
      assert AllValid(forms) && AllOctets(forms) == s;
    }
  }

  lemma {:induction false} FormsOf(s: seq<Byte>) returns (forms: seq<Form>)
    requires LooksLikeUtf8(s)
    ensures AllValid(forms) && AllOctets(forms) == s
    decreases |s|
  {
    if s == [] {
      forms := [];
    } else {
      var n := 1 + Following(s[0]).value;
      var f := FormOf(s[..n]);
      var rest := FormsOf(s[n..]);
      forms := [f] + rest;
      assert forms[1..] == rest && s == s[..n] + s[n..];
    }
  }

  predicate NulFree(s: seq<Byte>) {
    forall i :: 0 <= i < |s| ==> s[i] != 0
  }

  // What c_str() shows of a string: everything before the first zero.
  function CString(s: seq<Byte>): (t: seq<Byte>)
    ensures t <= s && NulFree(t)
    ensures NulFree(s) <==> t == s
    ensures !NulFree(s) ==> |t| < |s| && s[|t|] == 0
  {
    if s == [] || s[0] == 0 then [] else [s[0]] + CString(s[1..])
  }

  function PackText(s: seq<Byte>): seq<Byte> {
    CString(s) + [0]
  }

  function UnpackText(data: seq<Byte>): (r: Option<seq<Byte>>) {
    if |data| > MAX_PACK_LENGTH || NulFree(data) || !LooksLikeUtf8(CString(data)) then None
    else Some(CString(data))
  }

  lemma {:induction false} CStringOfPacked(s: seq<Byte>)
    ensures CString(PackText(s)) == CString(s)
  {
    var t := CString(s);
    assert !NulFree(PackText(s)) by { assert PackText(s)[|t|] == 0; }
    var u := CString(PackText(s));
    assert u <= PackText(s) && PackText(s)[|u|] == 0;
    assert |u| == |t|;
  }

  lemma TextRoundTrip(s: seq<Byte>)
    ensures UnpackText(PackText(s)) ==
      if |CString(s)| < 32767 && LooksLikeUtf8(CString(s)) then Some(CString(s)) else None
  {
    CStringOfPacked(s);
    assert PackText(s)[|CString(s)|] == 0;
  }

  /* Blocks: a 16-bit length and as many octets. A struct is packed the same way. */

  // SpinelPackData of one struct: nothing at all when it would be too long.
  function PackBlock(payload: seq<Byte>): seq<Byte> {
    if 2 + |payload| > MAX_PACK_LENGTH then [] else PackUint(|payload|, 2) + payload
  }

  // The block at the head of the data.
  function UnpackBlock(data: seq<Byte>): (r: Option<seq<Byte>>)
    ensures r.Some? ==> 2 + |r.value| <= |data| <= MAX_PACK_LENGTH && |r.value| < FRAME_MAX_SIZE
  {
    if |data| < 2 || |data| > MAX_PACK_LENGTH then None
    else
      var n := UintOf(data[..2]);
      if n >= FRAME_MAX_SIZE || |data| < 2 + n then None else Some(data[2..2 + n])
  }

  lemma BlockRoundTrip(payload: seq<Byte>, rest: seq<Byte>)
    requires 2 + |payload| <= 32767
    ensures UnpackBlock(PackBlock(payload) + rest) ==
      if |payload| < 1300 && 2 + |payload| + |rest| <= 32767 then Some(payload) else None
  {
    var data := PackBlock(payload) + rest;
    assert data[..2] == PackUint(|payload|, 2);
    Pow256Values();
    PackUintRoundTrip(|payload|, 2);
    assert data[2..2 + |payload|] == payload;
  }
}
