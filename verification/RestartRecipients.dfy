/** The Restart_Notification_Recipients list: its codec (`decode_list` of
    `bacnet_restart.c`), its versioned blob (`config_store.c`), and what a reboot
    makes of it.  The BACnet stack below is an interface with a stated contract. */
module RestartRecipients {

  import opened Common

  const RECIPIENTS_MAX: nat := 8
  const BYTES_MAX: nat := 256

  /** `BACNET_ADDRESS`: next-hop MAC, network number, and address on that network. */
  datatype Address = Address(mac: seq<byte>, net: nat, adr: seq<byte>)

  datatype Recipient = Device(isDevice: bool, instance: nat) | Direct(address: Address) | OtherTag

  /** What the firmware uses of the BACnet stack: its limits, the recipient codec (`decode`
      also tells how many bytes it consumed, a failure consuming none), and the two
      comparisons `bacnet_recipient_same` and `bacnet_address_net_same`. */
  datatype Stack = Stack(
    maxInstance: nat,
    maxMac: nat,
    broadcastNetwork: nat,
    encode: Recipient -> seq<byte>,
    decode: seq<byte> -> (Recipient, int),
    same: (Recipient, Recipient) -> bool,
    netSame: (Address, Address) -> bool)

  predicate RecipientValid(k: Stack, r: Recipient) {
    match r
    case Device(isDevice, instance) => isDevice && instance < k.maxInstance
    case Direct(a) =>
      |a.mac| <= k.maxMac && |a.adr| <= k.maxMac && a.net == 0 && (|a.mac| == 0 || |a.mac| == 6)
    case OtherTag => false
  }

  const LOCAL_BROADCAST := Direct(Address([], 0, []))

  /** The recipients that ever reach the encoder: those the stack decodes, and the local
      broadcast a missing list stands for.  The wire has one octet string for an address, so
      not every recipient of the type is among them. */
  ghost predicate Carried(k: Stack, r: Recipient) {
    r == LOCAL_BROADCAST || exists bytes :: Decodes(k, bytes, r)
  }

  predicate Decodes(k: Stack, bytes: seq<byte>, r: Recipient) {
    k.decode(bytes).0 == r && 0 < k.decode(bytes).1 <= |bytes|
  }

  /** The stack's contract: decoding the encoding of a recipient it carries gives it back,
      whatever follows, and `bacnet_recipient_same` is reflexive on valid recipients. */
  ghost predicate Lawful(k: Stack) {
    (forall r, rest: seq<byte> :: RecipientValid(k, r) && Carried(k, r) ==>
       |k.encode(r)| > 0 && k.decode(k.encode(r) + rest) == (r, |k.encode(r)|)) &&
    forall r :: RecipientValid(k, r) ==> k.same(r, r)
  }

  datatype List = List(recipients: seq<Recipient>, canonical: seq<byte>)

  const NO_RECIPIENTS := List([], [])

  function Grow(k: Stack, l: List, r: Recipient): List {
    List(l.recipients + [r], l.canonical + k.encode(r))
  }

  function DecodeRest(k: Stack, rest: seq<byte>, l: List): Option<List>
    decreases |rest|
  {
    if rest == [] then Some(l)
    else if |l.recipients| == RECIPIENTS_MAX then None
    else
      var (r, consumed) := k.decode(rest);
      if consumed <= 0 || consumed > |rest| || !RecipientValid(k, r) then None
      else
        var needed := |k.encode(r)|;
        if needed == 0 || |l.canonical| + needed > BYTES_MAX then None
        else DecodeRest(k, rest[consumed..], Grow(k, l, r))
  }

  function DecodeList(k: Stack, bytes: seq<byte>): Option<List> {
    if |bytes| > BYTES_MAX then None else DecodeRest(k, bytes, NO_RECIPIENTS)
  }

  /** `decode_list`. */
  method DecodeListLoop(k: Stack, bytes: seq<byte>) returns (result: Option<List>)
    ensures result == DecodeList(k, bytes)
  {
    if |bytes| > BYTES_MAX {
      return None;
    }
    var recipients: seq<Recipient>, canonical: seq<byte>, offset := [], [], 0;
    assert bytes[0..] == bytes;
    while offset < |bytes|
      invariant offset <= |bytes| && |canonical| <= BYTES_MAX
      invariant DecodeList(k, bytes) == DecodeRest(k, bytes[offset..], List(recipients, canonical))
    {
      if |recipients| == RECIPIENTS_MAX {
        return None;
      }
      var (recipient, consumed) := k.decode(bytes[offset..]);
      if consumed <= 0 || consumed > |bytes| - offset || !RecipientValid(k, recipient) {
        return None;
      }
      var needed := k.encode(recipient);
      if |needed| == 0 || |needed| > BYTES_MAX - |canonical| {
        return None;
      }
      assert bytes[offset..][consumed..] == bytes[offset + consumed..];
      canonical := canonical + needed;
      recipients := recipients + [recipient];
      offset := offset + consumed;
    }
    result := Some(List(recipients, canonical));
  }

  // ----- the canonical form -----------------------------------------------------------------

  function EncodeAll(k: Stack, rs: seq<Recipient>): seq<byte>
    decreases |rs|
  {
    if rs == [] then [] else k.encode(rs[0]) + EncodeAll(k, rs[1..])
  }

  ghost predicate AllCarried(k: Stack, rs: seq<Recipient>) {
    forall r | r in rs :: RecipientValid(k, r) && Carried(k, r)
  }

  /** A list as `decode_list` makes it. */
  ghost predicate Canonical(k: Stack, l: List) {
    |l.recipients| <= RECIPIENTS_MAX && |l.canonical| <= BYTES_MAX &&
    l.canonical == EncodeAll(k, l.recipients) && AllCarried(k, l.recipients)
  }

  lemma {:induction false} EncodeAppend(k: Stack, rs: seq<Recipient>, r: Recipient)
    ensures EncodeAll(k, rs + [r]) == EncodeAll(k, rs) + k.encode(r)
    decreases |rs|
  {
    if rs == [] {
      assert (rs + [r])[1..] == [];
    } else {
      assert (rs + [r])[1..] == rs[1..] + [r];
      EncodeAppend(k, rs[1..], r);
    }
  }

  lemma {:induction false} DecodeRestIsCanonical(k: Stack, rest: seq<byte>, l: List)
    requires Canonical(k, l) && DecodeRest(k, rest, l).Some?
    ensures Canonical(k, DecodeRest(k, rest, l).value)
    decreases |rest|
  {
    if rest == [] {
    } else {
      var (r, consumed) := k.decode(rest);
      assert Decodes(k, rest, r);
      EncodeAppend(k, l.recipients, r);
      DecodeRestIsCanonical(k, rest[consumed..], Grow(k, l, r));
    }
  }

  lemma FirstDecodes(k: Stack, r: Recipient, tail: seq<byte>)
    requires Lawful(k) && RecipientValid(k, r) && Carried(k, r)
    ensures |k.encode(r)| > 0 && k.decode(k.encode(r) + tail) == (r, |k.encode(r)|)
  {
  }

  lemma {:induction false} DecodeEncoded(k: Stack, rs: seq<Recipient>, l: List)
    requires Lawful(k) && AllCarried(k, rs)
    requires |l.recipients| + |rs| <= RECIPIENTS_MAX
    requires |l.canonical| + |EncodeAll(k, rs)| <= BYTES_MAX
    ensures DecodeRest(k, EncodeAll(k, rs), l) == Some(List(l.recipients + rs, l.canonical + EncodeAll(k, rs)))
    decreases |rs|
  {
    if rs == [] {
      assert l.recipients + rs == l.recipients && l.canonical + [] == l.canonical;
    } else {
      var r, tail := rs[0], EncodeAll(k, rs[1..]);
      assert r in rs && EncodeAll(k, rs) == k.encode(r) + tail;
      FirstDecodes(k, r, tail);
      assert (k.encode(r) + tail)[|k.encode(r)|..] == tail;
      DecodeEncoded(k, rs[1..], Grow(k, l, r));
      assert l.recipients + [r] + rs[1..] == l.recipients + rs;
      assert l.canonical + k.encode(r) + tail == l.canonical + EncodeAll(k, rs);
    }
  }

  /** `decode_list` is idempotent: its canonical output decodes to the same list and itself. */
  lemma CanonicalDecodesToItself(k: Stack, bytes: seq<byte>)
    requires Lawful(k) && DecodeList(k, bytes).Some?
    ensures DecodeList(k, DecodeList(k, bytes).value.canonical) == DecodeList(k, bytes)
  {
    var l := DecodeList(k, bytes).value;
    DecodeRestIsCanonical(k, bytes, NO_RECIPIENTS);
    DecodeEncoded(k, l.recipients, NO_RECIPIENTS);
    assert [] + l.recipients == l.recipients && [] + l.canonical == l.canonical;
  }

  // ----- which bytes are a list ---------------------------------------------------------------

  /** A recipient the firmware can reach without finding a router first: a device, or an
      address on the local network. */
  predicate Reachable(k: Stack, r: Recipient) {
    (r.Device? && r.isDevice && r.instance < k.maxInstance) ||
    (r.Direct? && r.address.net == 0 && |r.address.adr| <= k.maxMac && |r.address.mac| in {0, 6} &&
     |r.address.mac| <= k.maxMac)
  }

  /** The bytes from `i` to `j` are the stack's encoding of such a recipient. */
  predicate Holds(k: Stack, bytes: seq<byte>, i: nat, j: nat, r: Recipient) {
    i < j <= |bytes| && k.decode(bytes[i..]) == (r, j - i) && Reachable(k, r) && k.encode(r) != []
  }

  /** Cut at these places, the bytes are the encodings of `rs` in order. */
  ghost predicate CutInto(k: Stack, bytes: seq<byte>, rs: seq<Recipient>, cuts: seq<nat>) {
    |cuts| == |rs| + 1 && cuts[0] == 0 && forall i :: 0 <= i < |rs| ==> Holds(k, bytes, cuts[i], cuts[i + 1], rs[i])
  }

  lemma {:induction false} PrefixFits(k: Stack, rs: seq<Recipient>, i: nat)
    requires i <= |rs|
    ensures |EncodeAll(k, rs[..i])| <= |EncodeAll(k, rs)|
    decreases |rs| - i
  {
    if i == |rs| {
      assert rs[..i] == rs;
    } else {
      assert rs[..i + 1] == rs[..i] + [rs[i]];
      EncodeAppend(k, rs[..i], rs[i]);
      PrefixFits(k, rs, i + 1);
    }
  }

  lemma {:induction false} CutDecodes(k: Stack, bytes: seq<byte>, rs: seq<Recipient>, cuts: seq<nat>, i: nat)
    requires CutInto(k, bytes, rs, cuts) && cuts[|rs|] == |bytes| && i <= |rs| <= RECIPIENTS_MAX
    requires |EncodeAll(k, rs)| <= BYTES_MAX && cuts[i] <= |bytes|
    ensures DecodeRest(k, bytes[cuts[i]..], List(rs[..i], EncodeAll(k, rs[..i]))) == Some(List(rs, EncodeAll(k, rs)))
    decreases |rs| - i
  {
    if i == |rs| {
      assert rs[..i] == rs;
    } else {
      assert Holds(k, bytes, cuts[i], cuts[i + 1], rs[i]);
      assert rs[..i + 1] == rs[..i] + [rs[i]];
      EncodeAppend(k, rs[..i], rs[i]);
      PrefixFits(k, rs, i + 1);
      assert bytes[cuts[i]..][cuts[i + 1] - cuts[i]..] == bytes[cuts[i + 1]..];
      CutDecodes(k, bytes, rs, cuts, i + 1);
    }
  }

  lemma {:induction false} DecodedIsCut(k: Stack, bytes: seq<byte>, l: List, cuts: seq<nat>) returns (all: seq<nat>)
    requires CutInto(k, bytes, l.recipients, cuts) && cuts[|l.recipients|] <= |bytes|
    requires |l.recipients| <= RECIPIENTS_MAX && |l.canonical| <= BYTES_MAX
    requires l.canonical == EncodeAll(k, l.recipients)
    requires DecodeRest(k, bytes[cuts[|l.recipients|]..], l).Some?
    ensures var m := DecodeRest(k, bytes[cuts[|l.recipients|]..], l).value;
      CutInto(k, bytes, m.recipients, all) && all[|m.recipients|] == |bytes| &&
      m.canonical == EncodeAll(k, m.recipients) && |m.canonical| <= BYTES_MAX && |m.recipients| <= RECIPIENTS_MAX
    decreases |bytes| - cuts[|l.recipients|]
  {
    var from := cuts[|l.recipients|];
    if from == |bytes| {
      all := cuts;
    } else {
      var (r, consumed) := k.decode(bytes[from..]);
      EncodeAppend(k, l.recipients, r);
      assert bytes[from..][consumed..] == bytes[from + consumed..];
      all := DecodedIsCut(k, bytes, Grow(k, l, r), cuts + [from + consumed]);
    }
  }

  /** Bytes are accepted exactly when they are the encodings of at most eight reachable
      recipients in a row, none of which encodes to nothing, within 256 bytes as received and
      as encoded again; the list is those recipients in that order. */
  lemma DecodesExactly(k: Stack, bytes: seq<byte>, l: List)
    ensures DecodeList(k, bytes) == Some(l) <==>
      (|bytes| <= BYTES_MAX && |l.recipients| <= RECIPIENTS_MAX && |l.canonical| <= BYTES_MAX &&
       l.canonical == EncodeAll(k, l.recipients) &&
       exists cuts :: CutInto(k, bytes, l.recipients, cuts) && cuts[|l.recipients|] == |bytes|)
  {
    assert bytes[0..] == bytes;
    if DecodeList(k, bytes) == Some(l) {
      var cuts := DecodedIsCut(k, bytes, NO_RECIPIENTS, [0]);
      assert CutInto(k, bytes, l.recipients, cuts);
    }
    if cuts :| CutInto(k, bytes, l.recipients, cuts) && cuts[|l.recipients|] == |bytes| {
      if |bytes| <= BYTES_MAX && |l.recipients| <= RECIPIENTS_MAX && |EncodeAll(k, l.recipients)| <= BYTES_MAX {
        assert l.recipients[..0] == [];
        CutDecodes(k, bytes, l.recipients, cuts, 0);
      }
    }
  }

  // ----- the blob -----------------------------------------------------------------------------

  const VERSION: byte := 1
  const HEADER: nat := 3

  /** One NVS key. */
  datatype Key = Absent | Value(blob: seq<byte>)

  /** What a boot finds: the key, and whether reading it works this time. */
  datatype Nvs = Nvs(key: Key, readable: bool)

  /** Whether flash can be read, and a commit succeeds, at the time of a write. */
  datatype Flash = Flash(readable: bool, commits: bool)

  datatype ReadResult = Found(bytes: seq<byte>) | NotFound | InvalidState | InvalidLength | ReadFailed

  function Wrap(bytes: seq<byte>): seq<byte>
    requires |bytes| <= BYTES_MAX
  {
    [VERSION, |bytes| % 256, |bytes| / 256] + bytes
  }

  /** `restart_recipients_read` into a buffer of the full capacity. */
  function ReadRecipients(nvs: Nvs): ReadResult {
    if !nvs.readable then ReadFailed
    else
      match nvs.key
      case Absent => NotFound
      case Value(blob) =>
        if |blob| > HEADER + BYTES_MAX then InvalidLength
        else if |blob| < HEADER || blob[0] != VERSION then InvalidState
        else
          var payload: nat := (blob[1] as nat) + 256 * (blob[2] as nat);
          if payload > BYTES_MAX || |blob| != HEADER + payload then InvalidState
          else Found(blob[HEADER..])
  }

  /** `config_store_restart_recipients_set`: identical bytes are not rewritten, and a
      failed commit leaves the key as it was. */
  function StoreRecipients(key: Key, bytes: seq<byte>, flash: Flash): (Key, bool) {
    if |bytes| > BYTES_MAX then (key, false)
    else
      var previous := ReadRecipients(Nvs(key, flash.readable));
      if previous == Found(bytes) then (key, true)
      else if previous == ReadFailed then (key, false)
      else if flash.commits then (Value(Wrap(bytes)), true)
      else (key, false)
  }

  lemma StoredReadsBack(key: Key, bytes: seq<byte>, flash: Flash)
    ensures var (next, ok) := StoreRecipients(key, bytes, flash);
      if ok then ReadRecipients(Nvs(next, true)) == Found(bytes) else next == key
  {
  }

  lemma WrapIsFound(blob: seq<byte>, bytes: seq<byte>)
    ensures ReadRecipients(Nvs(Value(blob), true)) == Found(bytes) <==> |bytes| <= BYTES_MAX && blob == Wrap(bytes)
  {
    if ReadRecipients(Nvs(Value(blob), true)) == Found(bytes) {
      assert blob == [blob[0], blob[1], blob[2]] + blob[HEADER..];
    }
  }

  /** The key holds the bytes behind a header of version 1 and their length, low byte first. */
  predicate HeldAs(key: Key, bytes: seq<byte>) {
    |bytes| <= BYTES_MAX && key == Value([1, |bytes| % 256, |bytes| / 256] + bytes)
  }

  /** A key is read exactly if flash answers and it holds bytes behind their header; anything
      else but a missing key is a fault. */
  lemma FoundExactly(nvs: Nvs, bytes: seq<byte>)
    ensures ReadRecipients(nvs) == Found(bytes) <==> nvs.readable && HeldAs(nvs.key, bytes)
    ensures ReadRecipients(nvs) == NotFound <==> nvs.readable && nvs.key == Absent
    ensures ReadRecipients(nvs) == ReadFailed <==> !nvs.readable
  {
    if nvs.readable && nvs.key.Value? {
      WrapIsFound(nvs.key.blob, bytes);
    }
  }

  /** Writing succeeds exactly when flash answers and the bytes fit and are there already or
      are committed, whatever was stored before; a key that holds them is not written again. */
  lemma StoresExactly(key: Key, bytes: seq<byte>, flash: Flash)
    ensures var (next, ok) := StoreRecipients(key, bytes, flash);
      var there := ReadRecipients(Nvs(key, true)) == Found(bytes);
      (ok <==> |bytes| <= BYTES_MAX && flash.readable && (there || flash.commits)) &&
      (there || !ok ==> next == key)
  {
  }

  // ----- boot ------------------------------------------------------------------------------------

  /** The list `bacnet_restart_init` makes live, and whether it counts a configuration error. */
  function BootList(k: Stack, nvs: Nvs): (List, bool) {
    match ReadRecipients(nvs)
    case NotFound => (List([LOCAL_BROADCAST], k.encode(LOCAL_BROADCAST)), false)
    case Found(bytes) =>
      (match DecodeList(k, bytes)
       case Some(l) => (l, false)
       case None => (NO_RECIPIENTS, true))
    case _ => (NO_RECIPIENTS, true)
  }

  /** A stored list comes back from a reboot as the very list that was made live. */
  lemma RebootRestores(k: Stack, key: Key, written: seq<byte>, flash: Flash)
    requires Lawful(k) && DecodeList(k, written).Some?
    ensures var l := DecodeList(k, written).value;
      var (next, ok) := StoreRecipients(key, l.canonical, flash);
      if ok then BootList(k, Nvs(next, true)) == (l, false) else next == key
  {
    CanonicalDecodesToItself(k, written);
    StoredReadsBack(key, DecodeList(k, written).value.canonical, flash);
  }

  lemma BootListIsValid(k: Stack, nvs: Nvs)
    ensures forall r | r in BootList(k, nvs).0.recipients :: RecipientValid(k, r)
  {
    if ReadRecipients(nvs).Found? && DecodeList(k, ReadRecipients(nvs).bytes).Some? {
      DecodeRestIsCanonical(k, ReadRecipients(nvs).bytes, NO_RECIPIENTS);
    }
  }

  /** Nothing but an absent key broadens the recipients: any other boot list is empty, and
      counted as an error, unless the stored payload decodes to it. */
  lemma BootListHasACause(k: Stack, nvs: Nvs)
    requires Lawful(k)
    ensures var (l, error) := BootList(k, nvs);
      (error ==> l == NO_RECIPIENTS) &&
      (|k.encode(LOCAL_BROADCAST)| <= BYTES_MAX ==> Canonical(k, l)) &&
      (!error && nvs.key != Absent ==>
         ReadRecipients(nvs).Found? && DecodeList(k, ReadRecipients(nvs).bytes) == Some(l))
  {
    match ReadRecipients(nvs)
    case Found(bytes) =>
      if DecodeList(k, bytes).Some? {
        DecodeRestIsCanonical(k, bytes, NO_RECIPIENTS);
      }
    case _ =>
      assert EncodeAll(k, [LOCAL_BROADCAST]) == k.encode(LOCAL_BROADCAST) + EncodeAll(k, []);
  }

  /** The live list of a boot, for whatever flash holds. */
  lemma BootExactly(k: Stack, nvs: Nvs, l: List)
    ensures nvs.readable && nvs.key == Absent ==>
      BootList(k, nvs) == (List([Direct(Address([], 0, []))], k.encode(Direct(Address([], 0, [])))), false)
    ensures (BootList(k, nvs) == (l, false) && !(nvs.readable && nvs.key == Absent)) <==>
      (nvs.readable && exists bytes: seq<byte> :: HeldAs(nvs.key, bytes) && DecodeList(k, bytes) == Some(l))
    ensures BootList(k, nvs).1 ==> BootList(k, nvs).0 == List([], [])
  {
    if ReadRecipients(nvs).Found? {
      FoundExactly(nvs, ReadRecipients(nvs).bytes);
    }
    forall bytes: seq<byte> | HeldAs(nvs.key, bytes) && nvs.readable
      ensures ReadRecipients(nvs) == Found(bytes)
    {
      FoundExactly(nvs, bytes);
    }
  }

  // ----- a codec that meets the contract ----------------------------------------------------------

  function PlainEncode(r: Recipient): seq<byte> {
    match r
    case Device(_, n) => [12, n / 0x1_0000 % 256, n / 256 % 256, n % 256]
    case Direct(a) => [30, |a.mac| % 256] + a.mac
    case OtherTag => []
  }

  function PlainDecode(s: seq<byte>): (Recipient, int) {
    if |s| >= 4 && s[0] == 12 then
      (Device(true, (s[1] as nat) * 0x1_0000 + (s[2] as nat) * 256 + (s[3] as nat)), 4)
    else if |s| >= 2 && s[0] == 30 && |s| >= 2 + (s[1] as nat) then
      (Direct(Address(s[2..2 + (s[1] as nat)], 0, [])), 2 + (s[1] as nat))
    else (OtherTag, 0)
  }

  /** One octet string for an address: what `adr` holds on network 0 is not encoded. */
  const PLAIN: Stack := Stack(4194303, 7, 0xFFFF, PlainEncode, PlainDecode, (r, s) => r == s, (a, b) => a == b)

  lemma ThreeDigits(n: nat)
    requires n < 0x100_0000
    ensures n / 0x1_0000 % 256 * 0x1_0000 + n / 256 % 256 * 256 + n % 256 == n
  {
  }

  lemma PlainDevice(n: nat, rest: seq<byte>)
    requires n < 4194303
    ensures PlainDecode(PlainEncode(Device(true, n)) + rest) == (Device(true, n), 4)
  {
    var s := PlainEncode(Device(true, n)) + rest;
    ThreeDigits(n);
    assert s[0] == 12 && s[1] == n / 0x1_0000 % 256 && s[2] == n / 256 % 256 && s[3] == n % 256;
  }

  lemma PlainDirect(mac: seq<byte>, rest: seq<byte>)
    requires |mac| <= 7
    ensures PlainDecode(PlainEncode(Direct(Address(mac, 0, []))) + rest) ==
      (Direct(Address(mac, 0, [])), 2 + |mac|)
  {
    var s := [30, |mac| % 256] + mac + rest;
    assert s[0] == 30 && s[1] == |mac| && s[2..2 + |mac|] == mac;
  }

  lemma PlainRoundTrip(r: Recipient, rest: seq<byte>)
    requires RecipientValid(PLAIN, r) && Carried(PLAIN, r)
    ensures |PlainEncode(r)| > 0 && PlainDecode(PlainEncode(r) + rest) == (r, |PlainEncode(r)|)
  {
    match r
    case Device(isDevice, n) => PlainDevice(n, rest);
    case Direct(a) =>
      assert a == Address(a.mac, 0, []);
      PlainDirect(a.mac, rest);
  }

  /** The contract is met by a codec that gives two addresses on network 0 the same bytes. */
  lemma PlainIsLawful()
    ensures Lawful(PLAIN)
    ensures PLAIN.encode(Direct(Address([], 0, [1]))) == PLAIN.encode(LOCAL_BROADCAST)
  {
    var k := PLAIN;
    assert forall r :: k.same(r, r);
    forall r, rest: seq<byte> | RecipientValid(k, r) && Carried(k, r)
      ensures |k.encode(r)| > 0
      ensures k.decode(k.encode(r) + rest) == (r, |k.encode(r)|)
    {
      PlainRoundTrip(r, rest);
    }
    assert forall r :: RecipientValid(k, r) && Carried(k, r) ==> |k.encode(r)| > 0;
    assert forall r, rest: seq<byte> :: RecipientValid(k, r) && Carried(k, r) ==>
      k.decode(k.encode(r) + rest) == (r, |k.encode(r)|);
    assert Lawful(k);
  }
}
