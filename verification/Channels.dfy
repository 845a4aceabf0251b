/** Channel masks, and channel lists given as text. */
module Channels {
  import opened Options
  import opened Spinel

  /* Masks. A 32-bit mask is given by the set of its one-bits. */

  type Mask = m: set<nat> | forall c :: c in m ==> c < 32 witness {}

  const WIDTH: nat := 32

  // The channels of the mask below `n`, in order.
  function ChannelsBelow(mask: Mask, n: nat): seq<Byte>
    requires n <= WIDTH
  {
    if n == 0 then []
    else ChannelsBelow(mask, n - 1) + if n - 1 in mask then [n - 1] else []
  }

  function ChannelsOf(mask: Mask): seq<Byte> {
    ChannelsBelow(mask, WIDTH)
  }

  predicate Below32(s: seq<Byte>) {
    forall i :: 0 <= i < |s| ==> s[i] < 32
  }

  function Elements(s: seq<Byte>): set<nat> {
    set c: nat | c in s :: c
  }

  lemma ElementsSnoc(s: seq<Byte>, x: Byte)
    ensures Elements(s + [x]) == Elements(s) + {x}
  {
    assert (s + [x])[|s|] == x;
    forall c: nat ensures c in Elements(s + [x]) <==> c in Elements(s) + {x} {
      assert c in s + [x] <==> c in s || c == x;
    }
  }

  // The mask with exactly the channels listed, if they all fit.
  function MaskOf(s: seq<Byte>): (r: Option<Mask>) {
    if Below32(s) then
      assert forall c :: c in Elements(s) ==> c < 32;
      var mask: Mask := Elements(s);
      Some(mask)
    else None
  }

  ghost predicate Increasing(s: seq<Byte>) {
    forall i, j :: 0 <= i < j < |s| ==> s[i] < s[j]
  }

  lemma {:induction false} ChannelsBelowSorted(mask: Mask, n: nat)
    requires n <= WIDTH
    ensures Increasing(ChannelsBelow(mask, n))
    ensures forall i :: 0 <= i < |ChannelsBelow(mask, n)| ==> ChannelsBelow(mask, n)[i] < n
    ensures forall c: nat :: c in ChannelsBelow(mask, n) <==> c < n && c in mask
  {
    if n > 0 { ChannelsBelowSorted(mask, n - 1); }
  }

  // Packing lists the channels of the mask once each, in increasing order.
  lemma ChannelsOfSorted(mask: Mask)
    ensures Increasing(ChannelsOf(mask)) && Below32(ChannelsOf(mask))
    ensures forall c: nat :: c in ChannelsOf(mask) <==> c in mask
  {
    ChannelsBelowSorted(mask, WIDTH);
  }

  lemma MaskRoundTrip(mask: Mask)
    ensures MaskOf(ChannelsOf(mask)) == Some(mask)
  {
    ChannelsOfSorted(mask);
    assert Elements(ChannelsOf(mask)) == mask;
  }

  lemma {:induction false} IncreasingUnique(s: seq<Byte>, t: seq<Byte>)
    requires Increasing(s) && Increasing(t)
    requires forall c: Byte :: c in s <==> c in t
    ensures s == t
  {
    assert |s| > 0 ==> s[0] in s;
    assert |t| > 0 ==> t[0] in t;
    if s != [] && t != [] {
      var s', t' := s[1..], t[1..];
      assert s == [s[0]] + s' && t == [t[0]] + t';
      assert s[0] == t[0];
      forall c: Byte ensures c in s' <==> c in t' {
        assert c in s <==> c in t;
      }
      IncreasingUnique(s', t');
    }
  }

  // Repacking an unpacked list gives the one increasing list of the same channels.
  lemma RepackSorts(s: seq<Byte>, sorted: seq<Byte>)
    requires Below32(s)
    requires Increasing(sorted) && forall c: Byte :: c in sorted <==> c in s
    ensures MaskOf(s).Some? && ChannelsOf(MaskOf(s).value) == sorted
  {
    var mask := MaskOf(s).value;
    ChannelsOfSorted(mask);
    forall c: Byte ensures c in ChannelsOf(mask) <==> c in sorted {
      assert c in mask <==> c in s;
    }
    IncreasingUnique(ChannelsOf(mask), sorted);
  }

  method UnpackChannelMask(data: seq<Byte>) returns (r: Option<Mask>)
    ensures r == MaskOf(data)
  {
    var mask: Mask := {};
    var i := 0;
    while i < |data|
      invariant 0 <= i <= |data|
      invariant Below32(data[..i])
      invariant mask == Elements(data[..i])
    {
      if data[i] >= 32 {
        return None;
      }
      assert data[..i + 1] == data[..i] + [data[i]];
      ElementsSnoc(data[..i], data[i]);
      mask := mask + {data[i]};
      i := i + 1;
    }
    assert data[..i] == data;
    r := Some(mask);
  }

  method ConvertChannelMask(mask: Mask) returns (data: seq<Byte>)
    ensures data == ChannelsOf(mask)
  {
    data := [];
    for channel := 0 to WIDTH
      invariant data == ChannelsBelow(mask, channel)
    {
      if channel in mask {
        data := data + [channel];
      }
    }
  }

  /* Lists: colon-separated channels and ranges. How a number is read from text is left open. */

  const MAX_NUM_CHANNELS := 129
  const CHANNEL_LIST_SIZE := 17

  // The first place at or after `from` where `ch` stands, or the end.
  function Find(s: string, ch: char, from: nat): (k: nat)
    requires from <= |s|
    ensures from <= k <= |s|
    ensures k < |s| ==> s[k] == ch
    ensures forall i :: from <= i < k ==> s[i] != ch
    decreases |s| - from
  {
    if from == |s| || s[from] == ch then from else Find(s, ch, from + 1)
  }

  function Split(s: string, ch: char, from: nat): (parts: seq<string>)
    requires from <= |s|
    decreases |s| - from
  {
    var k := Find(s, ch, from);
    if k == |s| then [s[from..]] else [s[from..k]] + Split(s, ch, k + 1)
  }

  datatype Range = Range(first: int, last: int)

  // "a" or "a-b"
  function RangeOf(part: string, number: string -> int): Range {
    var k := Find(part, '-', 0);
    if k == |part| then Range(number(part), number(part)) else Range(number(part[..k]), number(part[k + 1..]))
  }

  // Whether marking the range stays inside the program's table, which nothing tests.
  predicate InTable(r: Range) {
    r.first <= r.last ==> 0 <= r.first && r.last < MAX_NUM_CHANNELS
  }

  ghost predicate AllInTable(values: seq<string>, number: string -> int) {
    forall i :: 0 <= i < |values| ==> InTable(RangeOf(values[i], number))
  }

  predicate Names(r: Range, c: int) {
    r.first <= c <= r.last
  }

  ghost predicate NamedBy(values: seq<string>, number: string -> int, c: int) {
    exists i :: 0 <= i < |values| && Names(RangeOf(values[i], number), c)
  }

  ghost predicate Named(text: string, number: string -> int, c: int) {
    NamedBy(Split(text, ':', 0), number, c)
  }

  // What a receiver of the list reads from it.
  predicate HasChannel(data: seq<Byte>, c: nat)
    requires |data| == 2 + CHANNEL_LIST_SIZE && c < 8 * CHANNEL_LIST_SIZE
  {
    Bit(data[2 + c / 8], c % 8)
  }

  function Join(parts: seq<string>, ch: char): string
    requires parts != []
  {
    if |parts| == 1 then parts[0] else parts[0] + [ch] + Join(parts[1..], ch)
  }

  lemma JoinNext(part: string, rest: seq<string>, ch: char)
    requires rest != []
    ensures Join([part] + rest, ch) == part + [ch] + Join(rest, ch)
  {
    assert ([part] + rest)[1..] == rest;
  }

  lemma JoinSplitNext(s: string, ch: char, from: nat, k: nat, rest: seq<string>)
    requires from <= k < |s| && s[k] == ch && rest != [] && Join(rest, ch) == s[k + 1..]
    ensures Join([s[from..k]] + rest, ch) == s[from..]
  {
    JoinNext(s[from..k], rest, ch);
    assert s[from..] == s[from..k] + [ch] + s[k + 1..];
  }

  // Splitting loses nothing...
  lemma {:induction false} SplitJoins(s: string, ch: char, from: nat, parts: seq<string>)
    requires from <= |s| && parts == Split(s, ch, from)
    ensures parts != [] && Join(parts, ch) == s[from..]
    decreases |s| - from
  {
    var k := Find(s, ch, from);
    if k < |s| {
      var rest := Split(s, ch, k + 1);
      SplitJoins(s, ch, k + 1, rest);
      JoinSplitNext(s, ch, from, k, rest);
    }
  }

  // ... and leaves no separator inside a part.
  lemma {:induction false} SplitSeparates(s: string, ch: char, from: nat, i: nat)
    requires from <= |s| && i < |Split(s, ch, from)|
    ensures ch !in Split(s, ch, from)[i]
    decreases |s| - from
  {
    var k := Find(s, ch, from);
    if i > 0 { SplitSeparates(s, ch, k + 1, i - 1); }
  }

  ghost predicate Separated(parts: seq<string>, ch: char) {
    parts != [] && forall i :: 0 <= i < |parts| ==> ch !in parts[i]
  }

  lemma FirstPart(p: string, u: string, q: string, v: string, ch: char)
    requires ch !in p && ch !in q && p + [ch] + u == q + [ch] + v
    ensures p == q && u == v
  {
    var s, t := p + [ch] + u, q + [ch] + v;
    assert s[|p|] == ch && t[|q|] == ch;
    assert forall i :: 0 <= i < |p| ==> s[i] == p[i];
    assert forall i :: 0 <= i < |q| ==> t[i] == q[i];
    assert |p| == |q|;
    assert s[..|p|] == p && t[..|q|] == q && s[|p| + 1..] == u && t[|q| + 1..] == v;
  }

  lemma JoinHas(parts: seq<string>, ch: char)
    requires Separated(parts, ch)
    ensures ch in Join(parts, ch) <==> |parts| > 1
  {
    if |parts| > 1 { assert Join(parts, ch)[|parts[0]|] == ch; }
  }

  lemma {:induction false} JoinInjective(x: seq<string>, y: seq<string>, ch: char)
    requires Separated(x, ch) && Separated(y, ch) && Join(x, ch) == Join(y, ch)
    ensures x == y
    decreases |x|
  {
    JoinHas(x, ch);
    JoinHas(y, ch);
    assert |x| > 1 <==> |y| > 1;
    if |x| > 1 {
      FirstPart(x[0], Join(x[1..], ch), y[0], Join(y[1..], ch), ch);
      JoinInjective(x[1..], y[1..], ch);
      assert x == [x[0]] + x[1..] && y == [y[0]] + y[1..];
    }
  }

  // What a text splits into is the one list of parts without separators that it is joined from.
  lemma SplitIs(s: string, ch: char, parts: seq<string>)
    requires Separated(parts, ch) && Join(parts, ch) == s
    ensures Split(s, ch, 0) == parts
  {
    var found := Split(s, ch, 0);
    SplitJoins(s, ch, 0, found);
    assert s[0..] == s;
    forall i | 0 <= i < |found| ensures ch !in found[i] { SplitSeparates(s, ch, 0, i); }
    JoinInjective(found, parts, ch);
  }

  lemma {:induction false} JoinAppend(x: seq<string>, y: seq<string>, ch: char)
    requires x != [] && y != []
    ensures Join(x + y, ch) == Join(x, ch) + [ch] + Join(y, ch)
    decreases |x|
  {
    if |x| == 1 {
      assert (x + y)[1..] == y;
    } else {
      JoinAppend(x[1..], y, ch);
      assert (x + y)[1..] == x[1..] + y;
    }
  }

  lemma SplitAppend(s: string, t: string, ch: char)
    ensures Split(s + [ch] + t, ch, 0) == Split(s, ch, 0) + Split(t, ch, 0)
  {
    var x, y := Split(s, ch, 0), Split(t, ch, 0);
    SplitJoins(s, ch, 0, x);
    SplitJoins(t, ch, 0, y);
    assert s[0..] == s && t[0..] == t;
    forall i | 0 <= i < |x| ensures ch !in x[i] { SplitSeparates(s, ch, 0, i); }
    forall i | 0 <= i < |y| ensures ch !in y[i] { SplitSeparates(t, ch, 0, i); }
    JoinAppend(x, y, ch);
    SplitIs(s + [ch] + t, ch, x + y);
  }

  lemma FindIs(s: string, ch: char, from: nat, k: nat)
    requires from <= k <= |s| && (k < |s| ==> s[k] == ch)
    requires forall i :: from <= i < k ==> s[i] != ch
    ensures Find(s, ch, from) == k
  {
    assert !(Find(s, ch, from) < k);
  }

  // A text without separators names the channel that it reads as, "a-b" names those from a to b, and
  // "t:u" names what t names and what u names.
  lemma NamedInWords(a: string, b: string, number: string -> int, c: int)
    requires '-' !in a && ':' !in a && ':' !in b
    ensures Named(a, number, c) <==> c == number(a)
    ensures Named(a + "-" + b, number, c) <==> number(a) <= c <= number(b)
  {
    var range := a + "-" + b;
    SplitIs(a, ':', [a]);
    SplitIs(range, ':', [range]);
    FindIs(a, '-', 0, |a|);
    FindIs(range, '-', 0, |a|);
    assert range[..|a|] == a && range[|a| + 1..] == b;
    assert [a][0] == a && [range][0] == range;
  }

  lemma NamedInTurn(t: string, u: string, number: string -> int, c: int)
    ensures Named(t + ":" + u, number, c) <==> Named(t, number, c) || Named(u, number, c)
  {
    SplitAppend(t, u, ':');
    NamedByEither(Split(t, ':', 0), Split(u, ':', 0), number, c);
  }

  lemma NamedByEither(x: seq<string>, y: seq<string>, number: string -> int, c: int)
    ensures NamedBy(x + y, number, c) <==> NamedBy(x, number, c) || NamedBy(y, number, c)
  {
    var all := x + y;
    if NamedBy(x, number, c) {
      var i :| 0 <= i < |x| && Names(RangeOf(x[i], number), c);
      assert all[i] == x[i];
    }
    if NamedBy(y, number, c) {
      var i :| 0 <= i < |y| && Names(RangeOf(y[i], number), c);
      assert all[|x| + i] == y[i];
    }
  }

  // Bit k of a number.
  predicate Bit(v: nat, k: nat) {
    if k == 0 then v % 2 == 1 else Bit(v / 2, k - 1)
  }

  function Pow2(n: nat): nat {
    if n == 0 then 1 else 2 * Pow2(n - 1)
  }

  // The number with these bits, the first one lowest.
  function Number(bits: seq<bool>): nat {
    if bits == [] then 0 else (if bits[0] then 1 else 0) + 2 * Number(bits[1..])
  }

  lemma {:induction false} NumberBit(bits: seq<bool>, k: nat)
    requires k < |bits|
    ensures Bit(Number(bits), k) == bits[k]
    decreases k
  {
    if k > 0 { NumberBit(bits[1..], k - 1); }
  }

  lemma {:induction false} NumberSnoc(bits: seq<bool>, b: bool)
    ensures Number(bits + [b]) == Number(bits) + if b then Pow2(|bits|) else 0
  {
    if bits != [] {
      NumberSnoc(bits[1..], b);
      assert (bits + [b])[1..] == bits[1..] + [b];
    }
  }

  lemma {:induction false} NumberBound(bits: seq<bool>)
    ensures Number(bits) < Pow2(|bits|)
  {
    if bits != [] { NumberBound(bits[1..]); }
  }

  // A store outside the table is noted but not made.
  method MarkRange(bits: array<bool>, r: Range) returns (inside: bool)
    requires bits.Length == MAX_NUM_CHANNELS
    modifies bits
    ensures inside <==> InTable(r)
    ensures forall c :: 0 <= c < MAX_NUM_CHANNELS ==> bits[c] == (old(bits[c]) || Names(r, c))
  {
    inside := true;
    var y := 0;
    while y <= r.last - r.first
      invariant 0 <= y && (y > 0 ==> y <= r.last - r.first + 1)
      invariant inside <==> y == 0 || (0 <= r.first && r.first + y <= MAX_NUM_CHANNELS)
      invariant forall c :: 0 <= c < MAX_NUM_CHANNELS ==>
        bits[c] == (old(bits[c]) || (Names(r, c) && c < r.first + y))
      decreases r.last - r.first - y
    {
      if 0 <= r.first + y < MAX_NUM_CHANNELS {
        bits[r.first + y] := true;
      } else {
        inside := false;
      }
      y := y + 1;
    }
  }

  lemma SplitNext(s: string, ch: char, from: nat, before: seq<string>)
    requires from <= |s| && Find(s, ch, from) < |s|
    ensures var k := Find(s, ch, from);
      before + Split(s, ch, from) == before + [s[from..k]] + Split(s, ch, k + 1)
  {
    var k := Find(s, ch, from);
    Associative(before, [s[from..k]], Split(s, ch, k + 1));
  }

  lemma Associative<T>(a: seq<T>, b: seq<T>, c: seq<T>)
    ensures a + (b + c) == a + b + c
  {
  }

  lemma SplitLast(s: string, ch: char, from: nat)
    requires from <= |s| && Find(s, ch, from) == |s|
    ensures Split(s, ch, from) == [s[from..|s|]]
  {
    assert s[from..] == s[from..|s|];
  }

  method SplitAtColons(text: string) returns (values: seq<string>)
    ensures values == Split(text, ':', 0)
  {
    ghost var whole := Split(text, ':', 0);
    ghost var rest := whole;
    values := [];
    var start := 0;
    var end := Find(text, ':', 0);
    while end != |text|
      invariant start <= end <= |text| && end == Find(text, ':', start)
      invariant rest == Split(text, ':', start) && values + rest == whole
      decreases |text| - start
    {
      SplitNext(text, ':', start, values);
      values := values + [text[start..end]];
      start := end + 1;
      end := Find(text, ':', start);
      rest := Split(text, ':', start);
    }
    SplitLast(text, ':', start);
    values := values + [text[start..end]];
  }

  // Step 3: eight table entries to an octet. An octet is stored when the next one begins.
  method PackBits(bits: seq<bool>) returns (bytes: array<nat>)
    requires |bits| == MAX_NUM_CHANNELS
    ensures bytes.Length == CHANNEL_LIST_SIZE
    ensures forall j :: 0 <= j < CHANNEL_LIST_SIZE - 1 ==> bytes[j] == Number(bits[8 * j..8 * j + 8])
    ensures bytes[CHANNEL_LIST_SIZE - 1] == 0
  {
    bytes := new nat[CHANNEL_LIST_SIZE](_ => 0);
    var eightMultiple := 8;
    var count := 0;
    var value := 0;
    ghost var g := 0;
    for x := 0 to MAX_NUM_CHANNELS
      invariant eightMultiple == 8 * g + 8 && 0 <= g <= 16
      invariant count == x - 8 * g && 0 <= count <= 8 && (x > 0 ==> count > 0)
      invariant value == Number(bits[8 * g..x])
      invariant forall j :: 0 <= j < g ==> bytes[j] == Number(bits[8 * j..8 * j + 8])
      invariant forall j :: g <= j < CHANNEL_LIST_SIZE ==> bytes[j] == 0
    {
      if x < eightMultiple {
        NumberSnoc(bits[8 * g..x], bits[x]);
        assert bits[8 * g..x] + [bits[x]] == bits[8 * g..x + 1];
        value := value + if bits[x] then Pow2(count) else 0;
        count := count + 1;
      } else {
        bytes[eightMultiple / 8 - 1] := value;
        eightMultiple := eightMultiple + 8;
        g := g + 1;
        assert bits[8 * g..x + 1] == [bits[x]];
        value := if bits[x] then 1 else 0;
        count := 1;
      }
    }
  }

  // The first two octets are zero and the packed ones follow.
  method Emit(bytes: array<nat>) returns (data: seq<Byte>)
    requires bytes.Length == CHANNEL_LIST_SIZE
    requires forall j :: 0 <= j < bytes.Length ==> bytes[j] < 0x100
    ensures data == [0, 0] + bytes[..]
  {
    data := [0, 0];
    for x := 0 to CHANNEL_LIST_SIZE
      invariant data == [0, 0] + bytes[..x]
    {
      assert bytes[..x + 1] == bytes[..x] + [bytes[x]];
      data := data + [bytes[x]];
    }
    assert bytes[..] == bytes[..CHANNEL_LIST_SIZE];
  }

  method MarkAll(values: seq<string>, number: string -> int) returns (bits: array<bool>, inside: bool)
    ensures bits.Length == MAX_NUM_CHANNELS
    ensures inside <==> AllInTable(values, number)
    ensures forall c :: 0 <= c < MAX_NUM_CHANNELS ==> (bits[c] <==> NamedBy(values, number, c))
  {
    bits := new bool[MAX_NUM_CHANNELS](_ => false);
    inside := true;
    for x := 0 to |values|
      invariant inside <==> AllInTable(values[..x], number)
      invariant forall c :: 0 <= c < MAX_NUM_CHANNELS ==> (bits[c] <==> NamedBy(values[..x], number, c))
    {
      var ok := MarkRange(bits, RangeOf(values[x], number));
      inside := inside && ok;
      assert values[..x + 1] == values[..x] + [values[x]];
      forall c: int ensures NamedBy(values[..x + 1], number, c) <==>
        NamedBy(values[..x], number, c) || Names(RangeOf(values[x], number), c)
      {
        NamedBySnoc(values, x, number, c);
      }
    }
    assert values[..|values|] == values;
  }

  lemma NamedBySnoc(values: seq<string>, x: nat, number: string -> int, c: int)
    requires x < |values|
    ensures NamedBy(values[..x + 1], number, c) <==>
      NamedBy(values[..x], number, c) || Names(RangeOf(values[x], number), c)
  {
    var before, after := values[..x], values[..x + 1];
    assert after[x] == values[x];
    if NamedBy(before, number, c) {
      var i :| 0 <= i < |before| && Names(RangeOf(before[i], number), c);
      assert after[i] == before[i];
    }
    if NamedBy(after, number, c) {
      var i :| 0 <= i < |after| && Names(RangeOf(after[i], number), c);
      if i < x { assert before[i] == after[i]; }
    }
  }

  // The whole conversion. It stays inside the table exactly when all ranges of the text do, and then
  // bit c mod 8 of octet c div 8 is set exactly when c is named, up to channel 127; the last octet
  // is zero.
  method ConvertChannelList(text: string, number: string -> int) returns (data: seq<Byte>, inside: bool)
    ensures inside <==> AllInTable(Split(text, ':', 0), number)
    ensures |data| == 2 + CHANNEL_LIST_SIZE && data[0] == 0 && data[1] == 0
    ensures inside ==> forall c ::
      0 <= c < 8 * (CHANNEL_LIST_SIZE - 1) ==> (HasChannel(data, c) <==> Named(text, number, c))
    ensures inside ==> data[1 + CHANNEL_LIST_SIZE] == 0
  {
    var values := SplitAtColons(text);
    var bits;
    bits, inside := MarkAll(values, number);
    ghost var b := bits[..];
    var bytes := PackBits(bits[..]);
    forall j | 0 <= j < CHANNEL_LIST_SIZE ensures bytes[j] < 0x100 {
      if j < CHANNEL_LIST_SIZE - 1 { OctetBound(b[8 * j..8 * j + 8]); }
    }
    data := Emit(bytes);
    forall c | 0 <= c < 8 * (CHANNEL_LIST_SIZE - 1) ensures HasChannel(data, c) <==> Named(text, number, c) {
      var j := c / 8;
      assert data[2 + j] == bytes[j];
      NumberBit(b[8 * j..8 * j + 8], c % 8);
    }
  }

  // Channel 128 is accepted but never sent: what is sent is what was named exactly when the text
  // does not name channel 128.
  lemma SentIsNamedIff(text: string, number: string -> int, data: seq<Byte>)
    requires |data| == 2 + CHANNEL_LIST_SIZE
    requires forall c :: 0 <= c < 8 * (CHANNEL_LIST_SIZE - 1) ==> (HasChannel(data, c) <==> Named(text, number, c))
    requires data[1 + CHANNEL_LIST_SIZE] == 0
    ensures (forall c :: 0 <= c < MAX_NUM_CHANNELS ==> (HasChannel(data, c) <==> Named(text, number, c)))
      <==> !Named(text, number, 128)
  {
    assert !Bit(0, 0);
    assert !HasChannel(data, 128);
  }

  // For instance the text "128", which the program takes: its one channel is not sent.
  lemma Channel128IsTakenAndNamed(number: string -> int)
    requires number("128") == 128
    ensures AllInTable(Split("128", ':', 0), number) && Named("128", number, 128)
  {
    var text := "128";
    assert Find(text, ':', 0) == 3 && Find(text, '-', 0) == 3;
    assert Split(text, ':', 0) == [text[0..]] && text[0..] == text;
    assert Names(RangeOf(Split(text, ':', 0)[0], number), 128);
  }

  lemma OctetBound(bits: seq<bool>)
    requires |bits| == 8
    ensures Number(bits) < 0x100
  {
    NumberBound(bits);
    assert Pow2(8) == 2 * Pow2(7) && Pow2(7) == 2 * Pow2(6) && Pow2(6) == 2 * Pow2(5) && Pow2(5) == 2 * Pow2(4);
    assert Pow2(4) == 2 * Pow2(3) && Pow2(3) == 2 * Pow2(2) && Pow2(2) == 2 * Pow2(1);
  }
}
