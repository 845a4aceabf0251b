/** A Thread operational dataset and its Spinel form: a run of structs, each a property key and a
    value. A 32-bit channel mask is given by the set of its one-bits.
 */
module ThreadDataset {
  import opened Options
  import opened Spinel
  import opened Channels
  import opened IPv6

  const PROP_PHY_CHAN := 0x21
  const PROP_PHY_CHAN_SUPPORTED := 0x22
  const PROP_MAC_15_4_PANID := 0x36
  const PROP_NET_NETWORK_NAME := 0x44
  const PROP_NET_XPANID := 0x45
  const PROP_NET_MASTER_KEY := 0x46
  const PROP_NET_PSKC := 0x4B
  const PROP_IPV6_ML_PREFIX := 0x62
  const PROP_DATASET_ACTIVE_TIMESTAMP := 0x151C
  const PROP_DATASET_PENDING_TIMESTAMP := 0x151D
  const PROP_DATASET_DELAY_TIMER := 0x151E
  const PROP_DATASET_SECURITY_POLICY := 0x151F
  const PROP_DATASET_RAW_TLVS := 0x1520
  const PROP_DATASET_DEST_ADDRESS := 0x1527

  const MESH_LOCAL_PREFIX_LEN: Byte := 64

  datatype Policy = Policy(keyRotationTime: U16, flags: U8)

  datatype Dataset = Dataset(
    activeTimestamp: Option<U64>,
    pendingTimestamp: Option<U64>,
    masterKey: Option<seq<Byte>>,
    networkName: Option<seq<Byte>>,
    extendedPanId: Option<seq<Byte>>,
    meshLocalPrefix: Option<Address>,
    delay: Option<U32>,
    panId: Option<U16>,
    channel: Option<U8>,
    pskc: Option<seq<Byte>>,
    channelMask: Option<Mask>,
    securityPolicy: Option<Policy>,
    rawTlvs: Option<seq<Byte>>,
    destAddress: Option<Address>)

  const UNSET: Dataset :=
    Dataset(None, None, None, None, None, None, None, None, None, None, None, None, None, None)

  // One field that is set, with its value.
  datatype Field =
    | ActiveTimestamp(time: U64)
    | PendingTimestamp(time: U64)
    | MasterKey(data: seq<Byte>)
    | NetworkName(name: seq<Byte>)
    | ExtendedPanId(data: seq<Byte>)
    | MeshLocalPrefix(address: Address)
    | Delay(delay: U32)
    | PanId(panId: U16)
    | Channel(channel: U8)
    | Pskc(data: seq<Byte>)
    | ChannelMask(mask: Mask)
    | SecurityPolicy(policy: Policy)
    | RawTlvs(data: seq<Byte>)
    | DestAddress(address: Address)

  function Key(f: Field): nat {
    match f
    case ActiveTimestamp(_) => PROP_DATASET_ACTIVE_TIMESTAMP
    case PendingTimestamp(_) => PROP_DATASET_PENDING_TIMESTAMP
    case MasterKey(_) => PROP_NET_MASTER_KEY
    case NetworkName(_) => PROP_NET_NETWORK_NAME
    case ExtendedPanId(_) => PROP_NET_XPANID
    case MeshLocalPrefix(_) => PROP_IPV6_ML_PREFIX
    case Delay(_) => PROP_DATASET_DELAY_TIMER
    case PanId(_) => PROP_MAC_15_4_PANID
    case Channel(_) => PROP_PHY_CHAN
    case Pskc(_) => PROP_NET_PSKC
    case ChannelMask(_) => PROP_PHY_CHAN_SUPPORTED
    case SecurityPolicy(_) => PROP_DATASET_SECURITY_POLICY
    case RawTlvs(_) => PROP_DATASET_RAW_TLVS
    case DestAddress(_) => PROP_DATASET_DEST_ADDRESS
  }

  function Put(ds: Dataset, f: Field): Dataset {
    match f
    case ActiveTimestamp(v) => ds.(activeTimestamp := Some(v))
    case PendingTimestamp(v) => ds.(pendingTimestamp := Some(v))
    case MasterKey(v) => ds.(masterKey := Some(v))
    case NetworkName(v) => ds.(networkName := Some(v))
    case ExtendedPanId(v) => ds.(extendedPanId := Some(v))
    case MeshLocalPrefix(v) => ds.(meshLocalPrefix := Some(v))
    case Delay(v) => ds.(delay := Some(v))
    case PanId(v) => ds.(panId := Some(v))
    case Channel(v) => ds.(channel := Some(v))
    case Pskc(v) => ds.(pskc := Some(v))
    case ChannelMask(v) => ds.(channelMask := Some(v))
    case SecurityPolicy(v) => ds.(securityPolicy := Some(v))
    case RawTlvs(v) => ds.(rawTlvs := Some(v))
    case DestAddress(v) => ds.(destAddress := Some(v))
  }

  function Wrap<V>(v: Option<V>, field: V -> Field): Option<Field> {
    match v
    case Some(x) => Some(field(x))
    case None => None
  }

  // The field with this key.
  function Get(ds: Dataset, key: nat): Option<Field> {
    match key
    case 0x151C => Wrap(ds.activeTimestamp, v => ActiveTimestamp(v))
    case 0x151D => Wrap(ds.pendingTimestamp, v => PendingTimestamp(v))
    case 0x46 => Wrap(ds.masterKey, v => MasterKey(v))
    case 0x44 => Wrap(ds.networkName, v => NetworkName(v))
    case 0x45 => Wrap(ds.extendedPanId, v => ExtendedPanId(v))
    case 0x62 => Wrap(ds.meshLocalPrefix, v => MeshLocalPrefix(v))
    case 0x151E => Wrap(ds.delay, v => Delay(v))
    case 0x36 => Wrap(ds.panId, v => PanId(v))
    case 0x21 => Wrap(ds.channel, v => Channel(v))
    case 0x4B => Wrap(ds.pskc, v => Pskc(v))
    case 0x22 => Wrap(ds.channelMask, v => ChannelMask(v))
    case 0x151F => Wrap(ds.securityPolicy, v => SecurityPolicy(v))
    case 0x1520 => Wrap(ds.rawTlvs, v => RawTlvs(v))
    case 0x1527 => Wrap(ds.destAddress, v => DestAddress(v))
    case _ => None
  }

  // The order in which fields are written.
  const KEYS: seq<nat> := [
    0x151C, 0x151D, 0x46, 0x44, 0x45, 0x62, 0x151E, 0x36, 0x21, 0x4B, 0x22, 0x151F, 0x1520, 0x1527]

  lemma {:induction false} GetPut(ds: Dataset, f: Field, key: nat)
    ensures Get(Put(ds, f), key) == if key == Key(f) then Some(f) else Get(ds, key)
  {
  }

  lemma {:induction false} GetHasKey(ds: Dataset, key: nat)
    ensures Get(ds, key).Some? ==> Key(Get(ds, key).value) == key
  {
  }

  lemma {:induction false} SameFields(a: Dataset, b: Dataset)
    requires forall i :: 0 <= i < |KEYS| ==> Get(a, KEYS[i]) == Get(b, KEYS[i])
    ensures a == b
  {
    assert Get(a, KEYS[0]) == Get(b, KEYS[0]) && Get(a, KEYS[1]) == Get(b, KEYS[1]);
    assert Get(a, KEYS[2]) == Get(b, KEYS[2]) && Get(a, KEYS[3]) == Get(b, KEYS[3]);
    assert Get(a, KEYS[4]) == Get(b, KEYS[4]) && Get(a, KEYS[5]) == Get(b, KEYS[5]);
    assert Get(a, KEYS[6]) == Get(b, KEYS[6]) && Get(a, KEYS[7]) == Get(b, KEYS[7]);
    assert Get(a, KEYS[8]) == Get(b, KEYS[8]) && Get(a, KEYS[9]) == Get(b, KEYS[9]);
    assert Get(a, KEYS[10]) == Get(b, KEYS[10]) && Get(a, KEYS[11]) == Get(b, KEYS[11]);
    assert Get(a, KEYS[12]) == Get(b, KEYS[12]) && Get(a, KEYS[13]) == Get(b, KEYS[13]);
  }

  /* Writing. */

  function Value(f: Field): seq<Byte> {
    match f
    case ActiveTimestamp(v) => PackUint(v, 8)
    case PendingTimestamp(v) => PackUint(v, 8)
    case MasterKey(v) => v
    case NetworkName(v) => PackText(v)
    case ExtendedPanId(v) => v
    case MeshLocalPrefix(v) => v + [MESH_LOCAL_PREFIX_LEN]
    case Delay(v) => PackUint(v, 4)
    case PanId(v) => PackUint(v, 2)
    case Channel(v) => [v]
    case Pskc(v) => v
    case ChannelMask(v) => ChannelsOf(v)
    case SecurityPolicy(v) => PackUint(v.keyRotationTime, 2) + [v.flags]
    case RawTlvs(v) => v
    case DestAddress(v) => v
  }

  function Payload(f: Field): seq<Byte> {
    EncodeUint(Key(f)) + Value(f)
  }

  // The fields that are set, in this order of keys.
  function FieldsOf(ds: Dataset, keys: seq<nat>): seq<Field> {
    if keys == [] then []
    else
      var rest := FieldsOf(ds, keys[1..]);
      if Get(ds, keys[0]).Some? then [Get(ds, keys[0]).value] + rest else rest
  }

  function Frame(fields: seq<Field>): seq<Byte> {
    if fields == [] then [] else PackBlock(Payload(fields[0])) + Frame(fields[1..])
  }

  // convert_to_spinel_frame, values included
  function Written(ds: Dataset): seq<Byte> {
    Frame(FieldsOf(ds, KEYS))
  }

  /* What is written, in figures. */

  lemma KeyOctets()
    ensures EncodeUint(0x151C) == [0x9C, 0x2A] && EncodeUint(0x151D) == [0x9D, 0x2A]
    ensures EncodeUint(0x151E) == [0x9E, 0x2A] && EncodeUint(0x151F) == [0x9F, 0x2A]
    ensures EncodeUint(0x1520) == [0xA0, 0x2A] && EncodeUint(0x1527) == [0xA7, 0x2A]
  {
    EncodeUintInFigures(0x151C);
    EncodeUintInFigures(0x151D);
    EncodeUintInFigures(0x151E);
    EncodeUintInFigures(0x151F);
    EncodeUintInFigures(0x1520);
    EncodeUintInFigures(0x1527);
  }

  lemma TwoOctetsLow(v: U16)
    ensures PackUint(v, 2) == [v % 0x100, v / 0x100]
  {
    assert PackUint(v, 2) == [v % 0x100] + PackUint(v / 0x100, 1);
    assert PackUint(v / 0x100, 1) == [v / 0x100 % 0x100] + [];
  }

  // The key and the value of each kind of field.
  lemma {:induction false} PayloadInFigures(f: Field)
    ensures f.ActiveTimestamp? ==> Payload(f) == [0x9C, 0x2A] + PackUint(f.time, 8)
    ensures f.PendingTimestamp? ==> Payload(f) == [0x9D, 0x2A] + PackUint(f.time, 8)
    ensures f.MasterKey? ==> Payload(f) == [0x46] + f.data
    ensures f.NetworkName? ==> Payload(f) == [0x44] + CString(f.name) + [0]
    ensures f.ExtendedPanId? ==> Payload(f) == [0x45] + f.data
    ensures f.MeshLocalPrefix? ==> Payload(f) == [0x62] + f.address + [64]
    ensures f.Delay? ==> Payload(f) == [0x9E, 0x2A] + PackUint(f.delay, 4)
    ensures f.PanId? ==> Payload(f) == [0x36, f.panId % 0x100, f.panId / 0x100]
    ensures f.Channel? ==> Payload(f) == [0x21, f.channel]
    ensures f.Pskc? ==> Payload(f) == [0x4B] + f.data
    ensures f.ChannelMask? ==> Payload(f) == [0x22] + ChannelsOf(f.mask)
    ensures f.SecurityPolicy? ==> var time := f.policy.keyRotationTime;
      Payload(f) == [0x9F, 0x2A, time % 0x100, time / 0x100, f.policy.flags]
    ensures f.RawTlvs? ==> Payload(f) == [0xA0, 0x2A] + f.data
    ensures f.DestAddress? ==> Payload(f) == [0xA7, 0x2A] + f.address
  {
    KeyOctets();
    if f.PanId? { TwoOctetsLow(f.panId); }
    if f.SecurityPolicy? { TwoOctetsLow(f.policy.keyRotationTime); }
    if f.NetworkName? { assert [0x44] + (CString(f.name) + [0]) == [0x44] + CString(f.name) + [0]; }
    if f.MeshLocalPrefix? { assert [0x62] + (f.address + [64]) == [0x62] + f.address + [64]; }
  }

  function Part(f: Option<Field>): seq<Byte> {
    if f.Some? then PackBlock(Payload(f.value)) else []
  }

  lemma FrameNext(ds: Dataset, key: nat, keys: seq<nat>)
    ensures Frame(FieldsOf(ds, [key] + keys)) == Part(Get(ds, key)) + Frame(FieldsOf(ds, keys))
  {
    assert ([key] + keys)[1..] == keys;
    var rest := FieldsOf(ds, keys);
    if Get(ds, key).Some? {
      assert ([Get(ds, key).value] + rest)[1..] == rest;
    }
  }

  function Parts(ds: Dataset, keys: seq<nat>): seq<Byte> {
    if keys == [] then [] else Part(Get(ds, keys[0])) + Parts(ds, keys[1..])
  }

  lemma {:induction false} FrameIsParts(ds: Dataset, keys: seq<nat>)
    ensures Frame(FieldsOf(ds, keys)) == Parts(ds, keys)
  {
    if keys != [] {
      FrameIsParts(ds, keys[1..]);
      FrameNext(ds, keys[0], keys[1..]);
      assert keys == [keys[0]] + keys[1..];
    }
  }

  // Every field that is set is written, the others are not, and this is the order.
  lemma WrittenInOrder(ds: Dataset, keys: seq<nat>)
    requires keys == [0x151C, 0x151D, 0x46, 0x44, 0x45, 0x62, 0x151E, 0x36, 0x21, 0x4B, 0x22, 0x151F, 0x1520, 0x1527]
    ensures Written(ds) == Parts(ds, keys)
  {
    FrameIsParts(ds, keys);
  }

  /* Reading. */

  datatype Entry = Bad | Unknown | Known(field: Field)

  function Datum(data: seq<Byte>, field: seq<Byte> -> Field): Entry {
    if data == [] then Bad else Known(field(data))
  }

  // parse_dataset_entry, once the key has been split off. Octets after a fixed-size value are ignored.
  function Interpret(key: nat, value: seq<Byte>): Entry {
    match key
    case 0x151C =>
      var v := UnpackU64(value);
      if v.Some? then Known(ActiveTimestamp(v.value)) else Bad
    case 0x151D =>
      var v := UnpackU64(value);
      if v.Some? then Known(PendingTimestamp(v.value)) else Bad
    case 0x46 => Datum(value, v => MasterKey(v))
    case 0x44 =>
      var name := UnpackText(value);
      if name.Some? then Known(NetworkName(name.value)) else Bad
    case 0x45 => Datum(value, v => ExtendedPanId(v))
    case 0x62 =>
      if 17 <= |value| <= MAX_PACK_LENGTH && value[16] == MESH_LOCAL_PREFIX_LEN then Known(MeshLocalPrefix(value[..16]))
      else Bad
    case 0x151E =>
      var v := UnpackU32(value);
      if v.Some? then Known(Delay(v.value)) else Bad
    case 0x36 =>
      var v := UnpackU16(value);
      if v.Some? then Known(PanId(v.value)) else Bad
    case 0x21 => if 1 <= |value| <= MAX_PACK_LENGTH then Known(Channel(value[0])) else Bad
    case 0x4B => Datum(value, v => Pskc(v))
    case 0x22 =>
      var m := MaskOf(value);
      if m.Some? then Known(ChannelMask(m.value)) else Bad
    case 0x151F =>
      var v := UnpackU16(value);
      if v.Some? && |value| >= 3 then Known(SecurityPolicy(Policy(v.value, value[2]))) else Bad
    case 0x1520 => Datum(value, v => RawTlvs(v))
    case 0x1527 => if 16 <= |value| <= MAX_PACK_LENGTH then Known(DestAddress(value[..16])) else Bad
    case _ => Unknown
  }

  function ParseEntry(payload: seq<Byte>): Entry {
    var key := DecodeUint(payload);
    if key.None? then Bad else Interpret(key.value.0, payload[key.value.1..])
  }

  // The entries of a frame put on top of a dataset, or nothing if one of them is bad.
  function ParseOnto(ds: Dataset, data: seq<Byte>): Option<Dataset>
    decreases |data|
  {
    if data == [] then Some(ds)
    else
      var block := UnpackBlock(data);
      if block.None? then None
      else
        var rest := data[2 + |block.value|..];
        match ParseEntry(block.value)
        case Bad => None
        case Unknown => ParseOnto(ds, rest)
        case Known(f) => ParseOnto(Put(ds, f), rest)
  }

  function Parse(data: seq<Byte>): Option<Dataset> {
    ParseOnto(UNSET, data)
  }

  /* What is read, in figures, whoever wrote it. */

  predicate IsKnown(key: nat) {
    key in {0x21, 0x22, 0x36, 0x44, 0x45, 0x46, 0x4B, 0x62, 0x151C, 0x151D, 0x151E, 0x151F, 0x1520, 0x1527}
  }

  // What is asked of the value of a known key.
  ghost predicate Acceptable(key: nat, value: seq<Byte>) {
    match key
    case 0x151C => 8 <= |value| <= 32767
    case 0x151D => 8 <= |value| <= 32767
    case 0x151E => 4 <= |value| <= 32767
    case 0x36 => 2 <= |value| <= 32767
    case 0x21 => 1 <= |value| <= 32767
    case 0x151F => 3 <= |value| <= 32767
    case 0x62 => 17 <= |value| <= 32767 && value[16] == 64
    case 0x1527 => 16 <= |value| <= 32767
    case 0x22 => forall i :: 0 <= i < |value| ==> value[i] < 32
    case 0x44 => |value| <= 32767 && !NulFree(value) && LooksLikeUtf8(CString(value))
    case _ => value != []
  }

  // A known key is taken exactly when its value is acceptable; any other key is ignored.
  lemma InterpretsIff(key: nat, value: seq<Byte>)
    ensures Interpret(key, value).Unknown? <==> !IsKnown(key)
    ensures Interpret(key, value).Known? <==> IsKnown(key) && Acceptable(key, value)
  {
  }

  lemma UintIsPrefix(value: seq<Byte>, n: nat)
    requires n <= |value|
    ensures PackUint(UintOf(value[..n]), n) == value[..n]
  {
    UintOfRoundTrip(value[..n]);
  }

  lemma TextIsPrefix(value: seq<Byte>)
    requires !NulFree(value)
    ensures PackText(CString(value)) <= value
  {
    var text := CString(value);
    assert CString(text) == text;
    assert value[|text|] == 0;
  }

  // What is read is a field of that key which would be written as the octets that were there, as far as
  // they are looked at. A mask is read as the set of the octets that were there.
  lemma ReadsWhatIsThere(key: nat, value: seq<Byte>)
    requires Interpret(key, value).Known?
    ensures var f := Interpret(key, value).field;
      Key(f) == key && if f.ChannelMask? then f.mask == Elements(value) else Value(f) <= value
  {
    InterpretsIff(key, value);
    if key == 0x44 { TextIsPrefix(value); }
    if key in {0x151C, 0x151D} { UintIsPrefix(value, 8); }
    if key == 0x151E { UintIsPrefix(value, 4); }
    if key in {0x36, 0x151F} { UintIsPrefix(value, 2); }
  }

  // One entry at the head of a frame, whoever wrote it: a known one is stored, an unknown one skipped,
  // and a bad one makes the whole frame be refused.
  lemma ParsesEntry(ds: Dataset, key: nat, value: seq<Byte>, payload: seq<Byte>, rest: seq<Byte>)
    requires key < 2097151 && payload == EncodeUint(key) + value
    requires |payload| < 1300 && 2 + |payload| + |rest| <= 32767
    ensures ParseOnto(ds, PackBlock(payload) + rest) ==
      match Interpret(key, value)
      case Bad => None
      case Unknown => ParseOnto(ds, rest)
      case Known(f) => ParseOnto(Put(ds, f), rest)
  {
    BlockRoundTrip(payload, rest);
    UintRoundTrip(key, value);
    assert payload[|EncodeUint(key)|..] == value;
    assert (PackBlock(payload) + rest)[2 + |payload|..] == rest;
  }

  /* One field, written and read back. */

  // What a caller can check of a field before writing it.
  predicate GoodText(name: seq<Byte>) {
    NulFree(name) && LooksLikeUtf8(name)
  }

  predicate Good(f: Field) {
    && |Payload(f)| < FRAME_MAX_SIZE
    && (f.MasterKey? || f.ExtendedPanId? || f.Pskc? || f.RawTlvs? ==> f.data != [])
    && (f.NetworkName? ==> GoodText(f.name))
  }

  lemma {:induction false} KeysFit(f: Field)
    ensures Key(f) < MAX_UINT_PACKED && Key(f) in KEYS
  {
    assert KEYS[0] == 0x151C && KEYS[1] == 0x151D && KEYS[2] == 0x46 && KEYS[3] == 0x44 && KEYS[4] == 0x45;
    assert KEYS[5] == 0x62 && KEYS[6] == 0x151E && KEYS[7] == 0x36 && KEYS[8] == 0x21 && KEYS[9] == 0x4B;
    assert KEYS[10] == 0x22 && KEYS[11] == 0x151F && KEYS[12] == 0x1520 && KEYS[13] == 0x1527;
  }

  lemma {:induction false} PayloadSplits(f: Field)
    ensures ParseEntry(Payload(f)) == Interpret(Key(f), Value(f))
  {
    KeysFit(f);
    UintRoundTrip(Key(f), Value(f));
    assert Payload(f)[|EncodeUint(Key(f))|..] == Value(f);
  }

  lemma {:induction false} InterpretsOwnNumber(f: Field)
    requires f.ActiveTimestamp? || f.PendingTimestamp? || f.Delay? || f.PanId? || f.SecurityPolicy?
    ensures Interpret(Key(f), Value(f)) == Known(f)
  {
    Pow256Values();
    match f {
      case ActiveTimestamp(v) => UnpackPacked(v, 8, []); assert Value(f) + [] == Value(f);
      case PendingTimestamp(v) => UnpackPacked(v, 8, []); assert Value(f) + [] == Value(f);
      case Delay(v) => UnpackPacked(v, 4, []); assert Value(f) + [] == Value(f);
      case PanId(v) => UnpackPacked(v, 2, []); assert Value(f) + [] == Value(f);
      case SecurityPolicy(v) => UnpackPacked(v.keyRotationTime, 2, [v.flags]);
    }
  }

  lemma {:induction false} InterpretsOwnData(f: Field)
    requires f.MasterKey? || f.ExtendedPanId? || f.Pskc? || f.RawTlvs?
    ensures Interpret(Key(f), Value(f)) == if f.data == [] then Bad else Known(f)
  {
  }

  lemma {:induction false} InterpretsOwnName(f: Field)
    requires f.NetworkName? && |CString(f.name)| < MAX_PACK_LENGTH
    ensures Interpret(Key(f), Value(f)) ==
      if LooksLikeUtf8(CString(f.name)) then Known(NetworkName(CString(f.name))) else Bad
  {
    TextRoundTrip(f.name);
  }

  lemma {:induction false} InterpretsOwnOther(f: Field)
    requires f.ChannelMask? || f.MeshLocalPrefix? || f.DestAddress? || f.Channel?
    ensures Interpret(Key(f), Value(f)) == Known(f)
  {
    match f {
      case ChannelMask(v) => MaskRoundTrip(v);
      case MeshLocalPrefix(v) => assert Value(f)[..16] == v;
      case DestAddress(v) => assert Value(f)[..16] == v;
      case Channel(_) =>
    }
  }

  /* A whole frame. */

  // What becomes of a field: too long to be packed at all, refused by the reader, or read as a
  // field, a name being cut short at its first zero.
  datatype Fate = Dropped | Refused | ReadAs(field: Field)

  function FateOf(f: Field): Fate {
    if 2 + |Payload(f)| > MAX_PACK_LENGTH then Dropped
    else if |Payload(f)| >= FRAME_MAX_SIZE then Refused
    else if f.NetworkName? then
      if LooksLikeUtf8(CString(f.name)) then ReadAs(NetworkName(CString(f.name))) else Refused
    else if Good(f) then ReadAs(f)
    else Refused
  }

  lemma {:induction false} InterpretsOwn(f: Field)
    requires |Payload(f)| < FRAME_MAX_SIZE
    ensures Interpret(Key(f), Value(f)) == if FateOf(f).ReadAs? then Known(FateOf(f).field) else Bad
  {
    if f.NetworkName? {
      InterpretsOwnName(f);
    } else if f.MasterKey? || f.ExtendedPanId? || f.Pskc? || f.RawTlvs? {
      InterpretsOwnData(f);
    } else if f.ChannelMask? || f.MeshLocalPrefix? || f.DestAddress? || f.Channel? {
      InterpretsOwnOther(f);
    } else {
      InterpretsOwnNumber(f);
    }
  }

  function Replay(ds: Dataset, fields: seq<Field>): Option<Dataset>
    decreases |fields|
  {
    if fields == [] then Some(ds)
    else
      match FateOf(fields[0])
      case Dropped => Replay(ds, fields[1..])
      case Refused => None
      case ReadAs(g) => Replay(Put(ds, g), fields[1..])
  }

  predicate Oversize(f: Field) {
    FRAME_MAX_SIZE <= |Payload(f)| && 2 + |Payload(f)| <= MAX_PACK_LENGTH
  }

  lemma {:induction false} OversizeRefused(ds: Dataset, fields: seq<Field>, i: nat)
    requires i < |fields| && Oversize(fields[i])
    ensures Replay(ds, fields).None?
    decreases |fields|
  {
    if i > 0 {
      if FateOf(fields[0]).ReadAs? {
        OversizeRefused(Put(ds, FateOf(fields[0]).field), fields[1..], i - 1);
      } else {
        OversizeRefused(ds, fields[1..], i - 1);
      }
    }
  }

  lemma {:induction false} FrameLength(fields: seq<Field>)
    requires forall i :: 0 <= i < |fields| ==> !Oversize(fields[i])
    ensures |Frame(fields)| <= 1301 * |fields|
  {
    if fields != [] { FrameLength(fields[1..]); }
  }

  // A frame too long to be looked at holds an entry that would be refused.
  lemma {:induction false} LongFrameRefused(ds: Dataset, fields: seq<Field>)
    requires |fields| <= 14 && |Frame(fields)| > MAX_PACK_LENGTH
    ensures Replay(ds, fields).None?
  {
    if i: nat :| i < |fields| && Oversize(fields[i]) {
      OversizeRefused(ds, fields, i);
    } else {
      FrameLength(fields);
    }
  }

  // The reader takes off the first entry.
  lemma {:induction false} ParseFirst(ds: Dataset, f: Field, rest: seq<Byte>)
    requires |Payload(f)| < FRAME_MAX_SIZE && 2 + |Payload(f)| + |rest| <= MAX_PACK_LENGTH
    ensures var data := PackBlock(Payload(f)) + rest;
      ParseOnto(ds, data) == if FateOf(f).ReadAs? then ParseOnto(Put(ds, FateOf(f).field), rest) else None
  {
    var data := PackBlock(Payload(f)) + rest;
    BlockRoundTrip(Payload(f), rest);
    PayloadSplits(f);
    InterpretsOwn(f);
    assert data[2 + |Payload(f)|..] == rest;
  }

  lemma {:induction false} ParseRefuses(ds: Dataset, f: Field, rest: seq<Byte>)
    requires 2 + |Payload(f)| <= MAX_PACK_LENGTH
    requires Oversize(f) || 2 + |Payload(f)| + |rest| > MAX_PACK_LENGTH
    ensures ParseOnto(ds, PackBlock(Payload(f)) + rest) == None
  {
    BlockRoundTrip(Payload(f), rest);
  }

  lemma {:induction false} ParseIsReplay(ds: Dataset, fields: seq<Field>)
    requires |fields| <= 14
    ensures ParseOnto(ds, Frame(fields)) == Replay(ds, fields)
    decreases |fields|
  {
    if fields != [] {
      var f, rest := fields[0], Frame(fields[1..]);
      if FateOf(f).Dropped? {
        assert Frame(fields) == rest;
        ParseIsReplay(ds, fields[1..]);
      } else if |Frame(fields)| > MAX_PACK_LENGTH {
        LongFrameRefused(ds, fields);
        ParseRefuses(ds, f, rest);
      } else if Oversize(f) {
        ParseRefuses(ds, f, rest);
      } else {
        ParseFirst(ds, f, rest);
        if FateOf(f).ReadAs? { ParseIsReplay(Put(ds, FateOf(f).field), fields[1..]); }
      }
    }
  }

  /* A whole dataset. */

  ghost predicate DistinctKeys(keys: seq<nat>) {
    forall i, j :: 0 <= i < j < |keys| ==> keys[i] != keys[j]
  }

  // What the reader holds under a key afterwards.
  function Outcome(before: Option<Field>, written: Option<Field>): Option<Field> {
    if written.Some? && FateOf(written.value).ReadAs? then Some(FateOf(written.value).field) else before
  }

  lemma {:induction false} ReadAsSameKey(f: Field)
    ensures FateOf(f).ReadAs? ==> Key(FateOf(f).field) == Key(f)
    ensures FateOf(f) == ReadAs(f) <==> Good(f)
  {
  }

  // What the first key's field does to the dataset read so far.
  function Absorb(e: Dataset, written: Option<Field>): Dataset {
    if written.Some? && FateOf(written.value).ReadAs? then Put(e, FateOf(written.value).field) else e
  }

  lemma {:induction false} AbsorbOutcome(e: Dataset, ds: Dataset, first: nat, key: nat)
    ensures Get(Absorb(e, Get(ds, first)), key)
         == if key == first then Outcome(Get(e, key), Get(ds, key)) else Get(e, key)
  {
    GetHasKey(ds, first);
    if Get(ds, first).Some? && FateOf(Get(ds, first).value).ReadAs? {
      ReadAsSameKey(Get(ds, first).value);
      GetPut(e, FateOf(Get(ds, first).value).field, key);
    }
  }

  lemma {:induction false} ReplayFirst(e: Dataset, ds: Dataset, keys: seq<nat>)
    requires keys != [] && Replay(e, FieldsOf(ds, keys)).Some?
    ensures Replay(e, FieldsOf(ds, keys)) == Replay(Absorb(e, Get(ds, keys[0])), FieldsOf(ds, keys[1..]))
  {
    if Get(ds, keys[0]).Some? { assert FieldsOf(ds, keys)[1..] == FieldsOf(ds, keys[1..]); }
  }

  lemma {:induction false} ReplayOutcome(e: Dataset, ds: Dataset, keys: seq<nat>, key: nat)
    requires DistinctKeys(keys)
    requires Replay(e, FieldsOf(ds, keys)).Some?
    ensures Get(Replay(e, FieldsOf(ds, keys)).value, key)
         == if key in keys then Outcome(Get(e, key), Get(ds, key)) else Get(e, key)
    decreases |keys|
  {
    if keys != [] {
      ReplayFirst(e, ds, keys);
      AbsorbOutcome(e, ds, keys[0], key);
      ReplayOutcome(Absorb(e, Get(ds, keys[0])), ds, keys[1..], key);
      assert keys[0] !in keys[1..];
      assert key in keys <==> key == keys[0] || key in keys[1..];
    }
  }

  lemma {:induction false} ReplaySucceeds(e: Dataset, fields: seq<Field>)
    requires forall i :: 0 <= i < |fields| ==> Good(fields[i])
    ensures Replay(e, fields).Some?
    decreases |fields|
  {
    if fields != [] {
      ReadAsSameKey(fields[0]);
      ReplaySucceeds(Put(e, fields[0]), fields[1..]);
    }
  }

  lemma {:induction false} FieldsOfGet(ds: Dataset, keys: seq<nat>, f: Field)
    ensures f in FieldsOf(ds, keys) <==> Key(f) in keys && Get(ds, Key(f)) == Some(f)
    ensures |FieldsOf(ds, keys)| <= |keys|
  {
    if keys != [] {
      FieldsOfGet(ds, keys[1..], f);
      GetHasKey(ds, keys[0]);
      assert Key(f) in keys <==> Key(f) == keys[0] || Key(f) in keys[1..];
    }
  }

  ghost predicate AllGood(ds: Dataset) {
    forall f :: Get(ds, Key(f)) == Some(f) ==> Good(f)
  }

  lemma {:induction false} GoodComesBack(ds: Dataset, keys: seq<nat>, key: nat)
    requires AllGood(ds) && DistinctKeys(keys) && key in keys
    requires Replay(UNSET, FieldsOf(ds, keys)).Some?
    ensures Get(Replay(UNSET, FieldsOf(ds, keys)).value, key) == Get(ds, key)
  {
    ReplayOutcome(UNSET, ds, keys, key);
    GetHasKey(ds, key);
    if Get(ds, key).Some? { ReadAsSameKey(Get(ds, key).value); }
  }

  lemma {:induction false} BadIsLost(ds: Dataset, keys: seq<nat>, f: Field)
    requires Get(ds, Key(f)) == Some(f) && !Good(f)
    requires DistinctKeys(keys) && Key(f) in keys
    ensures Replay(UNSET, FieldsOf(ds, keys)) != Some(ds)
  {
    if Replay(UNSET, FieldsOf(ds, keys)).Some? {
      ReplayOutcome(UNSET, ds, keys, Key(f));
      ReadAsSameKey(f);
    }
  }

  lemma {:induction false} GoodFieldsReplay(ds: Dataset, keys: seq<nat>)
    requires AllGood(ds)
    ensures Replay(UNSET, FieldsOf(ds, keys)).Some?
  {
    var fields := FieldsOf(ds, keys);
    forall i | 0 <= i < |fields| ensures Good(fields[i]) { FieldsOfGet(ds, keys, fields[i]); }
    ReplaySucceeds(UNSET, fields);
  }

  lemma {:induction false} RoundTripOver(ds: Dataset, keys: seq<nat>)
    requires keys == KEYS && DistinctKeys(keys)
    ensures Parse(Frame(FieldsOf(ds, keys))) == Some(ds) <==> AllGood(ds)
  {
    FieldsOfGet(ds, keys, ActiveTimestamp(0));
    ParseIsReplay(UNSET, FieldsOf(ds, keys));
    if AllGood(ds) {
      GoodFieldsReplay(ds, keys);
      var r := Replay(UNSET, FieldsOf(ds, keys)).value;
      forall i | 0 <= i < |KEYS| ensures Get(r, KEYS[i]) == Get(ds, KEYS[i]) {
        assert keys[i] in keys;
        GoodComesBack(ds, keys, keys[i]);
      }
      SameFields(r, ds);
    } else {
      var f :| Get(ds, Key(f)) == Some(f) && !Good(f);
      KeysFit(f);
      BadIsLost(ds, keys, f);
    }
  }

  // The reader gets back the dataset that was written exactly when every field that is set is
  // good: data not empty, the name free of zeros and well-formed, and the entry below the limit.
  lemma {:induction false} RoundTripIff(ds: Dataset)
    ensures Parse(Written(ds)) == Some(ds) <==> AllGood(ds)
  {
    RoundTripOver(ds, KEYS);
  }

  /* The object itself: fourteen optional fields, set one entry at a time. */

  // The part of the frame that is written for the keys from the k-th on.
  ghost function FrameFrom(ds: Dataset, keys: seq<nat>, k: nat): seq<Byte>
    requires k <= |keys|
  {
    Frame(FieldsOf(ds, keys[k..]))
  }

  lemma {:induction false} FrameStep(ds: Dataset, keys: seq<nat>, k: nat, before: seq<Byte>)
    requires k < |keys|
    ensures before + FrameFrom(ds, keys, k)
         == (if Get(ds, keys[k]).Some? then before + PackBlock(Payload(Get(ds, keys[k]).value)) else before)
            + FrameFrom(ds, keys, k + 1)
  {
    var tail := keys[k..];
    assert tail[1..] == keys[k + 1..];
    var rest := FieldsOf(ds, tail[1..]);
    if Get(ds, tail[0]).Some? { assert ([Get(ds, tail[0]).value] + rest)[1..] == rest; }
  }

  const NUMBER_KEYS: set<nat> := {0x151C, 0x151D, 0x151E, 0x36, 0x21, 0x151F}
  const DATA_KEYS: set<nat> := {0x46, 0x45, 0x4B, 0x1520}
  const OTHER_KEYS: set<nat> := {0x44, 0x62, 0x22, 0x1527}

  lemma {:induction false} KnownKeys(key: nat, value: seq<Byte>)
    ensures Interpret(key, value).Unknown? <==> key !in NUMBER_KEYS && key !in DATA_KEYS && key !in OTHER_KEYS
  {
  }

  class OperationalDataset {
    var activeTimestamp: Option<U64>
    var pendingTimestamp: Option<U64>
    var masterKey: Option<seq<Byte>>
    var networkName: Option<seq<Byte>>
    var extendedPanId: Option<seq<Byte>>
    var meshLocalPrefix: Option<Address>
    var delay: Option<U32>
    var panId: Option<U16>
    var channel: Option<U8>
    var pskc: Option<seq<Byte>>
    var channelMask: Option<Mask>
    var securityPolicy: Option<Policy>
    var rawTlvs: Option<seq<Byte>>
    var destAddress: Option<Address>

    function Contents(): Dataset
      reads this
    {
      Dataset(activeTimestamp, pendingTimestamp, masterKey, networkName, extendedPanId, meshLocalPrefix, delay,
              panId, channel, pskc, channelMask, securityPolicy, rawTlvs, destAddress)
    }

    constructor ()
      ensures Contents() == UNSET
    {
      activeTimestamp := None;
      pendingTimestamp := None;
      masterKey := None;
      networkName := None;
      extendedPanId := None;
      meshLocalPrefix := None;
      delay := None;
      panId := None;
      channel := None;
      pskc := None;
      channelMask := None;
      securityPolicy := None;
      rawTlvs := None;
      destAddress := None;
    }

    method ClearFirst()
      modifies `activeTimestamp, `pendingTimestamp, `masterKey, `networkName, `extendedPanId
      ensures activeTimestamp == None && pendingTimestamp == None && masterKey == None
      ensures networkName == None && extendedPanId == None
    {
      activeTimestamp := None;
      pendingTimestamp := None;
      masterKey := None;
      networkName := None;
      extendedPanId := None;
    }

    method ClearSecond()
      modifies `meshLocalPrefix, `delay, `panId, `channel, `pskc
      ensures meshLocalPrefix == None && delay == None && panId == None && channel == None && pskc == None
    {
      meshLocalPrefix := None;
      delay := None;
      panId := None;
      channel := None;
      pskc := None;
    }

    method ClearLast()
      modifies `channelMask, `securityPolicy, `rawTlvs, `destAddress
      ensures channelMask == None && securityPolicy == None && rawTlvs == None && destAddress == None
    {
      channelMask := None;
      securityPolicy := None;
      rawTlvs := None;
      destAddress := None;
    }

    method Clear()
      modifies this
      ensures Contents() == UNSET
    {
      ClearFirst();
      ClearSecond();
      ClearLast();
    }

    method Store(f: Field)
      modifies this
      ensures Contents() == Put(old(Contents()), f)
    {
      match f {
        case ActiveTimestamp(v) => activeTimestamp := Some(v);
        case PendingTimestamp(v) => pendingTimestamp := Some(v);
        case MasterKey(v) => masterKey := Some(v);
        case NetworkName(v) => networkName := Some(v);
        case ExtendedPanId(v) => extendedPanId := Some(v);
        case MeshLocalPrefix(v) => meshLocalPrefix := Some(v);
        case Delay(v) => delay := Some(v);
        case PanId(v) => panId := Some(v);
        case Channel(v) => channel := Some(v);
        case Pskc(v) => pskc := Some(v);
        case ChannelMask(v) => channelMask := Some(v);
        case SecurityPolicy(v) => securityPolicy := Some(v);
        case RawTlvs(v) => rawTlvs := Some(v);
        case DestAddress(v) => destAddress := Some(v);
      }
    }

    // The entries that hold numbers of a fixed size. Whether the key is one of theirs, and whether
    // the value is good.
    method ParseNumber(key: nat, value: seq<Byte>) returns (mine: bool, ok: bool)
      modifies this
      ensures mine <==> key in NUMBER_KEYS
      ensures mine ==> ok == Interpret(key, value).Known?
      ensures Contents() ==
        if mine && ok then Put(old(Contents()), Interpret(key, value).field) else old(Contents())
    {
      mine, ok := true, false;
      match key {
        case 0x151C =>
          var v := UnpackU64(value);
          if v.Some? { ok := true; Store(ActiveTimestamp(v.value)); }
        case 0x151D =>
          var v := UnpackU64(value);
          if v.Some? { ok := true; Store(PendingTimestamp(v.value)); }
        case 0x151E =>
          var v := UnpackU32(value);
          if v.Some? { ok := true; Store(Delay(v.value)); }
        case 0x36 =>
          var v := UnpackU16(value);
          if v.Some? { ok := true; Store(PanId(v.value)); }
        case 0x21 =>
          if 1 <= |value| <= MAX_PACK_LENGTH { ok := true; Store(Channel(value[0])); }
        case 0x151F =>
          var v := UnpackU16(value);
          if v.Some? && |value| >= 3 { ok := true; Store(SecurityPolicy(Policy(v.value, value[2]))); }
        case _ => mine := false;
      }
    }

    // The entries that take their value as it is, which must not be empty.
    method ParseData(key: nat, value: seq<Byte>) returns (mine: bool, ok: bool)
      modifies this
      ensures mine <==> key in DATA_KEYS
      ensures mine ==> ok == Interpret(key, value).Known?
      ensures Contents() ==
        if mine && ok then Put(old(Contents()), Interpret(key, value).field) else old(Contents())
    {
      mine, ok := true, value != [];
      match key {
        case 0x46 => if ok { Store(MasterKey(value)); }
        case 0x45 => if ok { Store(ExtendedPanId(value)); }
        case 0x4B => if ok { Store(Pskc(value)); }
        case 0x1520 => if ok { Store(RawTlvs(value)); }
        case _ => mine := false;
      }
    }

    // The other entries: text, addresses and the list of channels.
    method ParseOther(key: nat, value: seq<Byte>) returns (mine: bool, ok: bool)
      modifies this
      ensures mine <==> key in OTHER_KEYS
      ensures mine ==> ok == Interpret(key, value).Known?
      ensures Contents() ==
        if mine && ok then Put(old(Contents()), Interpret(key, value).field) else old(Contents())
    {
      mine, ok := true, false;
      match key {
        case 0x44 =>
          var name := UnpackText(value);
          if name.Some? { ok := true; Store(NetworkName(name.value)); }
        case 0x62 =>
          if 17 <= |value| <= MAX_PACK_LENGTH && value[16] == MESH_LOCAL_PREFIX_LEN {
            ok := true;
            Store(MeshLocalPrefix(value[..16]));
          }
        case 0x22 =>
          var mask := UnpackChannelMask(value);
          if mask.Some? { ok := true; Store(ChannelMask(mask.value)); }
        case 0x1527 =>
          if 16 <= |value| <= MAX_PACK_LENGTH { ok := true; Store(DestAddress(value[..16])); }
        case _ => mine := false;
      }
    }

    // One entry: its key, and what its value says. An unknown key is ignored.
    method ParseDatasetEntry(payload: seq<Byte>) returns (ok: bool)
      modifies this
      ensures ok == !ParseEntry(payload).Bad?
      ensures Contents() ==
        if ParseEntry(payload).Known? then Put(old(Contents()), ParseEntry(payload).field) else old(Contents())
    {
      var decoded := DecodeUint(payload);
      if decoded.None? {
        return false;
      }
      var key, value := decoded.value.0, payload[decoded.value.1..];
      KnownKeys(key, value);
      var mine;
      mine, ok := ParseNumber(key, value);
      if mine { return; }
      mine, ok := ParseData(key, value);
      if mine { return; }
      mine, ok := ParseOther(key, value);
      if mine { return; }
      ok := true;
    }

    // A frame that does not parse leaves nothing behind, not even its good entries.
    method SetFromSpinelFrame(frame: seq<Byte>) returns (ok: bool)
      modifies this
      ensures ok == Parse(frame).Some?
      ensures Contents() == if Parse(frame).Some? then Parse(frame).value else UNSET
    {
      ok := true;
      Clear();
      var data := frame;
      while |data| > 0 && ok
        invariant ok ==> ParseOnto(Contents(), data) == Parse(frame)
        invariant !ok ==> Parse(frame) == None
        decreases |data|, ok
      {
        var block := UnpackBlock(data);
        if block.None? {
          ok := false;
        } else {
          ok := ParseDatasetEntry(block.value);
          data := data[2 + |block.value|..];
        }
      }
      if !ok {
        Clear();
      }
    }

    // One entry, if its field is set.
    method AppendEntry(before: seq<Byte>, key: nat, ghost keys: seq<nat>, ghost k: nat) returns (frame: seq<Byte>)
      requires k < |keys| && keys[k] == key
      requires before + FrameFrom(Contents(), keys, k) == FrameFrom(Contents(), keys, 0)
      ensures frame + FrameFrom(Contents(), keys, k + 1) == FrameFrom(Contents(), keys, 0)
    {
      frame := before;
      var field := Get(Contents(), key);
      if field.Some? {
        frame := frame + PackBlock(Payload(field.value));
      }
      FrameStep(Contents(), keys, k, before);
    }

    method AppendFirst(before: seq<Byte>, ghost keys: seq<nat>) returns (frame: seq<Byte>)
      requires |keys| == 14
      requires keys[0] == 0x151C && keys[1] == 0x151D && keys[2] == 0x46 && keys[3] == 0x44 && keys[4] == 0x45
      requires before + FrameFrom(Contents(), keys, 0) == FrameFrom(Contents(), keys, 0)
      ensures frame + FrameFrom(Contents(), keys, 5) == FrameFrom(Contents(), keys, 0)
    {
      frame := before;
      frame := AppendEntry(frame, 0x151C, keys, 0);
      frame := AppendEntry(frame, 0x151D, keys, 1);
      frame := AppendEntry(frame, 0x46, keys, 2);
      frame := AppendEntry(frame, 0x44, keys, 3);
      frame := AppendEntry(frame, 0x45, keys, 4);
    }

    method AppendSecond(before: seq<Byte>, ghost keys: seq<nat>) returns (frame: seq<Byte>)
      requires |keys| == 14
      requires keys[5] == 0x62 && keys[6] == 0x151E && keys[7] == 0x36 && keys[8] == 0x21 && keys[9] == 0x4B
      requires before + FrameFrom(Contents(), keys, 5) == FrameFrom(Contents(), keys, 0)
      ensures frame + FrameFrom(Contents(), keys, 10) == FrameFrom(Contents(), keys, 0)
    {
      frame := before;
      frame := AppendEntry(frame, 0x62, keys, 5);
      frame := AppendEntry(frame, 0x151E, keys, 6);
      frame := AppendEntry(frame, 0x36, keys, 7);
      frame := AppendEntry(frame, 0x21, keys, 8);
      frame := AppendEntry(frame, 0x4B, keys, 9);
    }

    method AppendLast(before: seq<Byte>, ghost keys: seq<nat>) returns (frame: seq<Byte>)
      requires |keys| == 14
      requires keys[10] == 0x22 && keys[11] == 0x151F && keys[12] == 0x1520 && keys[13] == 0x1527
      requires before + FrameFrom(Contents(), keys, 10) == FrameFrom(Contents(), keys, 0)
      ensures frame + FrameFrom(Contents(), keys, 14) == FrameFrom(Contents(), keys, 0)
    {
      frame := before;
      frame := AppendEntry(frame, 0x22, keys, 10);
      frame := AppendEntry(frame, 0x151F, keys, 11);
      frame := AppendEntry(frame, 0x1520, keys, 12);
      frame := AppendEntry(frame, 0x1527, keys, 13);
    }

    method ConvertToSpinelFrame() returns (frame: seq<Byte>)
      ensures frame == Written(Contents())
    {
      frame := AppendFirst([], KEYS);
      frame := AppendSecond(frame, KEYS);
      frame := AppendLast(frame, KEYS);
    }
  }
}
