/** The configuration record of `config_model.c`: validation, object names, and the three
    functions that rewrite its device instance. */
module ConfigModel {

  import opened Common

  const FIRST: nat := 599000
  const LAST: nat := 599999
  const DEFAULT_INSTANCE: nat := 599153
  const INSTANCE_MAX: nat := 4194302
  const REVISIONS: nat := 0x1_0000_0000
  const NAME_LEN: nat := 48
  const VENDOR_NAME_LEN: nat := 48
  const LOCATION_LEN: nat := 64
  const HOSTNAME_LEN: nat := 32

  const LEGACY: nat := 0
  const AUTO_LOCKED: nat := 1
  const MANUAL: nat := 2
  const AUTO_NEW: nat := 3
  const AUTO_CHECK_SAVED: nat := 4

  /** Eight channel names. */
  type Names = s: seq<string> | |s| == 8 witness ["", "", "", "", "", "", "", ""]

  /** The four address texts, as parsed: none where the text is not a dotted quad. */
  datatype Network = Network(ip: Option<bv32>, mask: Option<bv32>, gateway: Option<bv32>, dns: Option<bv32>)

  /** Every field but the instance, its mode and the revision. */
  datatype Settings = Settings(
    port: nat,
    vendorId: nat,
    inputInvertMask: nat,
    dhcp: bool,
    restoreRelays: bool,
    hostname: string,
    deviceName: string,
    vendorName: string,
    location: string,
    network: Network,
    inputNames: Names,
    relayNames: Names)

  datatype Config = Config(instance: nat, mode: nat, revision: nat, settings: Settings)

  // ----- validation --------------------------------------------------------------------------

  predicate Printable(s: string, capacity: nat, allowEmpty: bool) {
    |s| < capacity && (allowEmpty || s != "") && forall c | c in s :: ' ' <= c <= '~'
  }

  predicate Alphanumeric(c: char) {
    '0' <= c <= '9' || 'a' <= c <= 'z' || 'A' <= c <= 'Z'
  }

  predicate HostnameValid(s: string) {
    0 < |s| < HOSTNAME_LEN && s[0] != '-' && s[|s| - 1] != '-' && forall c | c in s :: Alphanumeric(c) || c == '-'
  }

  predicate Contiguous(mask: bv32) {
    mask != 0 && !mask & (!mask + 1) == 0
  }

  predicate FirstOctetUnicast(ip: bv32) {
    var first := ip >> 24;
    first != 0 && first != 127 && first < 224
  }

  predicate HasHosts(mask: bv32) {
    !mask > 1
  }

  predicate HostZero(ip: bv32, mask: bv32) {
    ip & !mask == 0
  }

  predicate HostOnes(ip: bv32, mask: bv32) {
    ip & !mask == !mask
  }

  predicate SameNetwork(gateway: bv32, ip: bv32, mask: bv32) {
    gateway & mask == ip & mask
  }

  /** `static_ipv4_is_valid`, past the parsing. */
  predicate StaticValid(n: Network) {
    n.ip.Some? && n.mask.Some? && n.gateway.Some? && n.dns.Some? &&
    var (ip, mask, gateway) := (n.ip.value, n.mask.value, n.gateway.value);
    Contiguous(mask) && FirstOctetUnicast(ip) && (HasHosts(mask) ==> !HostZero(ip, mask) && !HostOnes(ip, mask)) &&
    (gateway != 0 ==> SameNetwork(gateway, ip, mask))
  }

  /** The netmasks /1 to /32: ones and then zeros. */
  predicate Netmask(mask: bv32) {
    mask in {
         0x8000_0000, 0xC000_0000, 0xE000_0000, 0xF000_0000, 0xF800_0000, 0xFC00_0000, 0xFE00_0000, 0xFF00_0000,
         0xFF80_0000, 0xFFC0_0000, 0xFFE0_0000, 0xFFF0_0000, 0xFFF8_0000, 0xFFFC_0000, 0xFFFE_0000, 0xFFFF_0000,
         0xFFFF_8000, 0xFFFF_C000, 0xFFFF_E000, 0xFFFF_F000, 0xFFFF_F800, 0xFFFF_FC00, 0xFFFF_FE00, 0xFFFF_FF00,
         0xFFFF_FF80, 0xFFFF_FFC0, 0xFFFF_FFE0, 0xFFFF_FFF0, 0xFFFF_FFF8, 0xFFFF_FFFC, 0xFFFF_FFFE, 0xFFFF_FFFF}
  }

  predicate InUnicastRange(ip: bv32) {
    0x0100_0000 <= ip < 0xE000_0000 && !(0x7F00_0000 <= ip < 0x8000_0000)
  }

  predicate NetworkAddress(ip: bv32, mask: bv32) {
    ip == ip & mask
  }

  predicate BroadcastAddress(ip: bv32, mask: bv32) {
    ip == ip | !mask
  }

  predicate ShorterThan31(mask: bv32) {
    mask < 0xFFFF_FFFE
  }

  lemma MaskTest(mask: bv32)
    ensures Contiguous(mask) <==> Netmask(mask)
  {
  }

  lemma UnicastTest(ip: bv32)
    ensures FirstOctetUnicast(ip) <==> InUnicastRange(ip)
  {
  }

  lemma SizeTest(mask: bv32)
    ensures HasHosts(mask) <==> ShorterThan31(mask)
  {
  }

  lemma ZeroIsNetwork(ip: bv32, mask: bv32)
    requires HostZero(ip, mask)
    ensures NetworkAddress(ip, mask)
  {
  }

  lemma NetworkIsZero(ip: bv32, mask: bv32)
    requires NetworkAddress(ip, mask)
    ensures HostZero(ip, mask)
  {
  }

  lemma OnesIsBroadcast(ip: bv32, mask: bv32)
    requires HostOnes(ip, mask)
    ensures BroadcastAddress(ip, mask)
  {
  }

  lemma BroadcastIsOnes(ip: bv32, mask: bv32)
    requires BroadcastAddress(ip, mask)
    ensures HostOnes(ip, mask)
  {
  }

  /** What a static address must be, in the terms of an administrator: four addresses; a
      netmask; the address of a host (from 1.0.0.0 to 223.255.255.255 but not 127.x.x.x, and,
      below /31, neither the network's own address nor the broadcast there); and a gateway that
      is 0.0.0.0 or in that network. */
  predicate HostAddress(n: Network) {
    n.ip.Some? && n.mask.Some? && n.gateway.Some? && n.dns.Some? &&
    var (ip, mask, gateway) := (n.ip.value, n.mask.value, n.gateway.value);
    Netmask(mask) && InUnicastRange(ip) &&
    (ShorterThan31(mask) ==> !NetworkAddress(ip, mask) && !BroadcastAddress(ip, mask)) &&
    (gateway == 0 || SameNetwork(gateway, ip, mask))
  }

  lemma StaticExactly(n: Network)
    ensures StaticValid(n) <==> HostAddress(n)
  {
    if n.ip.Some? && n.mask.Some? {
      var (ip, mask) := (n.ip.value, n.mask.value);
      MaskTest(mask);
      UnicastTest(ip);
      SizeTest(mask);
      if HostZero(ip, mask) {
        ZeroIsNetwork(ip, mask);
      }
      if NetworkAddress(ip, mask) {
        NetworkIsZero(ip, mask);
      }
      if HostOnes(ip, mask) {
        OnesIsBroadcast(ip, mask);
      }
      if BroadcastAddress(ip, mask) {
        BroadcastIsOnes(ip, mask);
      }
    }
  }

  function Lower(c: char): char {
    if 'A' <= c <= 'Z' then ((c as int) + 32) as char else c
  }

  /** `strcasecmp` is 0. */
  predicate SameName(a: string, b: string) {
    |a| == |b| && forall i :: 0 <= i < |a| ==> Lower(a[i]) == Lower(b[i])
  }

  predicate Letter(c: char) {
    'a' <= c <= 'z' || 'A' <= c <= 'Z'
  }

  /** Names are the same exactly if they differ in nothing but the case of letters. */
  lemma SameNameIgnoresCase(a: string, b: string)
    ensures SameName(a, b) <==>
      (|a| == |b| && forall i :: 0 <= i < |a| ==>
        a[i] == b[i] || (Letter(a[i]) && Letter(b[i]) && (a[i] as int - b[i] as int) in {32, -32}))
  {
    forall c: char, d: char
      ensures Lower(c) == Lower(d) <==>
        c == d || (Letter(c) && Letter(d) && (c as int - d as int) in {32, -32})
    {
    }
  }

  const FIXED_NAMES: seq<string> := [
    "Status Ethernet Link", "Status IPv4 Assigned", "Status Relay Controller", "Status RTC Present",
    "Status Uptime Seconds", "Status Free Heap Bytes", "Status Minimum Heap Bytes", "Status Reboot Count",
    "BACnet/IP Ethernet Port", "Configuration Hostname", "Configuration Relay State Restore"]

  function ObjectNames(s: Settings): seq<string> {
    [s.deviceName] + s.inputNames + s.relayNames + FIXED_NAMES
  }

  predicate Unique(names: seq<string>) {
    forall i, j :: 0 <= i < j < |names| ==> !SameName(names[i], names[j])
  }

  predicate SettingsValid(s: Settings) {
    s.port != 0 && HostnameValid(s.hostname) && Printable(s.deviceName, NAME_LEN, false) &&
    Printable(s.vendorName, VENDOR_NAME_LEN, false) && Printable(s.location, LOCATION_LEN, true) &&
    (forall n | n in s.inputNames :: Printable(n, NAME_LEN, false)) &&
    (forall n | n in s.relayNames :: Printable(n, NAME_LEN, false)) &&
    Unique(ObjectNames(s)) && (s.dhcp || StaticValid(s.network))
  }

  /** `config_model_validate`. */
  predicate Validate(c: Config) {
    c.instance <= INSTANCE_MAX && c.mode <= AUTO_CHECK_SAVED && SettingsValid(c.settings)
  }

  predicate Text(s: string, shortest: nat, longest: nat) {
    shortest <= |s| <= longest && forall i :: 0 <= i < |s| ==> 0x20 <= s[i] as int <= 0x7E
  }

  /** A hostname: letters, digits and internal hyphens. */
  predicate Label(s: string) {
    1 <= |s| <= 31 &&
    forall i :: 0 <= i < |s| ==> Letter(s[i]) || '0' <= s[i] <= '9' || (s[i] == '-' && 0 < i < |s| - 1)
  }

  lemma HostnameIsLabel(s: string)
    ensures HostnameValid(s) <==> Label(s)
  {
    if HostnameValid(s) {
      assert forall i :: 0 <= i < |s| ==> s[i] in s;
    }
    if Label(s) {
      assert s[0] != '-' && s[|s| - 1] != '-';
    }
  }

  lemma PrintableText(s: string, capacity: nat, allowEmpty: bool)
    requires capacity > 0
    ensures Printable(s, capacity, allowEmpty) <==> Text(s, if allowEmpty then 0 else 1, capacity - 1)
  {
    assert s == "" <==> |s| == 0;
    if Printable(s, capacity, allowEmpty) {
      assert forall i :: 0 <= i < |s| ==> s[i] in s;
    }
  }

  lemma ChannelTexts(names: Names)
    ensures (forall n | n in names :: Printable(n, NAME_LEN, false)) <==>
            (forall i :: 0 <= i < 8 ==> Text(names[i], 1, 47))
  {
    forall i | 0 <= i < 8 ensures Printable(names[i], NAME_LEN, false) <==> Text(names[i], 1, 47) {
      PrintableText(names[i], NAME_LEN, false);
    }
  }

  /** Which configurations are accepted: the field limits, and no two of the 28 objects with
      names that differ in case alone. */
  lemma ValidExactly(c: Config)
    ensures Validate(c) <==>
      (c.instance < 4194303 && c.mode < 5 && c.settings.port > 0 && Label(c.settings.hostname) &&
       Text(c.settings.deviceName, 1, 47) && Text(c.settings.vendorName, 1, 47) && Text(c.settings.location, 0, 63) &&
       (forall i :: 0 <= i < 8 ==> Text(c.settings.inputNames[i], 1, 47) && Text(c.settings.relayNames[i], 1, 47)) &&
       (forall i, j :: 0 <= i < j < 28 ==> !SameName(ObjectNames(c.settings)[i], ObjectNames(c.settings)[j])) &&
       (c.settings.dhcp || HostAddress(c.settings.network)))
  {
    StaticExactly(c.settings.network);
    HostnameIsLabel(c.settings.hostname);
    assert |ObjectNames(c.settings)| == 28;
    ChannelTexts(c.settings.inputNames);
    ChannelTexts(c.settings.relayNames);
    PrintableText(c.settings.deviceName, NAME_LEN, false);
    PrintableText(c.settings.vendorName, VENDOR_NAME_LEN, false);
    PrintableText(c.settings.location, LOCATION_LEN, true);
  }

  /** `object_names_are_unique`. */
  method NamesAreUnique(s: Settings) returns (unique: bool)
    ensures unique <==> Unique(ObjectNames(s))
  {
    var names := [s.deviceName] + s.inputNames + s.relayNames + FIXED_NAMES;
    var left := 0;
    while left < |names|
      invariant left <= |names|
      invariant forall i, j :: 0 <= i < left && i < j < |names| ==> !SameName(names[i], names[j])
    {
      var right := left + 1;
      while right < |names|
        invariant left < right <= |names|
        invariant forall j :: left < j < right ==> !SameName(names[left], names[j])
      {
        if SameName(names[left], names[right]) {
          return false;
        }
        right := right + 1;
      }
      left := left + 1;
    }
    unique := true;
  }

  // ----- the instance ------------------------------------------------------------------------

  function Decimal(n: nat): (s: string)
    ensures s != "" && forall c | c in s :: '0' <= c <= '9'
  {
    var digit := [(('0' as int) + n % 10) as char];
    if n < 10 then digit else Decimal(n / 10) + digit
  }

  function DefaultName(n: nat): string {
    "BACnet IO " + Decimal(n)
  }

  /** The number that decimal digits stand for. */
  function Read(s: string): int
    decreases |s|
  {
    if s == [] then 0 else 10 * Read(s[..|s| - 1]) + (s[|s| - 1] as int - '0' as int)
  }

  /** `%lu`: the digits read back as the number, without leading zeros. */
  lemma {:induction false} DecimalReads(n: nat)
    ensures Read(Decimal(n)) == n && (Decimal(n)[0] == '0' <==> n == 0)
    decreases n
  {
    if n < 10 {
      assert Decimal(n)[..0] == [];
    } else {
      DecimalReads(n / 10);
      var digit := [(('0' as int) + n % 10) as char];
      assert (Decimal(n / 10) + digit)[..|Decimal(n / 10)|] == Decimal(n / 10);
    }
  }

  predicate Pending(c: Config) {
    c.mode == AUTO_NEW || c.mode == AUTO_CHECK_SAVED
  }

  function Renamed(s: Settings, from: nat, to: nat): Settings {
    if s.deviceName != DefaultName(from) then s
    else
      var r := s.(deviceName := DefaultName(to));
      if Unique(ObjectNames(r)) then r else s
  }

  /** `config_model_assign_instance`: none when it refuses. */
  function Assign(c: Config, expected: nat, instance: nat): Option<Config> {
    if !Pending(c) || c.revision != expected || instance < FIRST || instance > LAST then None
    else
      Some(Config(instance, AUTO_LOCKED, (c.revision + 1) % REVISIONS, Renamed(c.settings, c.instance, instance)))
  }

  /** `config_model_migrate_instance_mode`. */
  function Migrate(c: Config): Config {
    if c.mode == AUTO_LOCKED && (c.instance < FIRST || c.instance > LAST) then c.(mode := MANUAL)
    else if c.mode != LEGACY then c
    else c.(mode := if c.instance == DEFAULT_INSTANCE then AUTO_CHECK_SAVED else MANUAL)
  }

  /** The instance part of a web edit. */
  datatype Options = Options(automatic: Option<bool>, instance: Option<nat>, reselect: bool)

  /** `config_model_instance_options`. */
  function InstanceOptions(c: Config, o: Options): Option<Config> {
    if o.reselect && o.automatic != Some(true) then None
    else if o.automatic == Some(true) then
      if o.reselect || c.mode == MANUAL then Some(c.(mode := AUTO_NEW)) else Some(c)
    else if o.automatic.Some? || o.instance.Some? then
      Some(c.(mode := MANUAL, instance := if o.instance.Some? then o.instance.value else c.instance))
    else Some(c)
  }

  /** What every configuration past a boot satisfies: an automatically locked instance lies in
      the automatic range, and no mode is a legacy one. */
  predicate Settled(c: Config) {
    LEGACY < c.mode <= AUTO_CHECK_SAVED && (c.mode == AUTO_LOCKED ==> FIRST <= c.instance <= LAST)
  }

  lemma RewritesSettle(c: Config, o: Options, expected: nat, instance: nat)
    ensures c.mode <= AUTO_CHECK_SAVED ==> Settled(Migrate(c))
    ensures Settled(c) ==> Migrate(c) == c
    ensures Settled(c) && InstanceOptions(c, o).Some? ==>
      Settled(InstanceOptions(c, o).value) && InstanceOptions(c, o).value.revision == c.revision
    ensures Assign(c, expected, instance).Some? ==> Settled(Assign(c, expected, instance).value)
  {
  }

  /** A migrated configuration is up for automatic assignment exactly if it was, or carries the
      old shared factory instance; any other legacy instance is kept for good. */
  lemma MigrationKeepsDeliberateIds(c: Config, instance: nat)
    requires c.mode <= AUTO_CHECK_SAVED
    ensures var m := Migrate(c);
      m == c.(mode := m.mode) &&
      (Assign(m, m.revision, instance).Some? <==>
        FIRST <= instance <= LAST && (Pending(c) || (c.mode == LEGACY && c.instance == DEFAULT_INSTANCE)))
  {
  }

  /** An automatic-mode form never overwrites the instance; it reopens selection only when asked
      to, or when leaving manual mode.  Any other edit that names a mode or an instance ends
      automatic selection, so no assignment can follow. */
  lemma OptionsMeaning(c: Config, o: Options, instance: nat)
    requires FIRST <= instance <= LAST && InstanceOptions(c, o).Some?
    ensures var e := InstanceOptions(c, o).value;
      e == c.(mode := e.mode, instance := e.instance) &&
      (e.instance != c.instance ==> o.instance == Some(e.instance) && o.automatic != Some(true)) &&
      (Assign(e, e.revision, instance).Some? <==>
        if o.automatic == Some(true) then o.reselect || c.mode == MANUAL || Pending(c)
        else o.automatic.None? && o.instance.None? && Pending(c))
  {
  }

  /** What an edit that is not refused does.  In automatic mode it keeps the instance and starts
      a selection when asked to or when leaving manual mode; naming manual mode or an instance
      makes the configuration manual, with the instance given if any; an edit that names
      neither changes nothing. */
  predicate Edits(c: Config, o: Options, e: Config) {
    e.settings == c.settings && e.revision == c.revision &&
    (o.automatic == Some(true) ==>
      e.instance == c.instance &&
      (e.mode == AUTO_NEW <==> o.reselect || c.mode == MANUAL || c.mode == AUTO_NEW) &&
      (e.mode != AUTO_NEW ==> e.mode == c.mode)) &&
    (o.automatic != Some(true) && o.instance.Some? ==> e.mode == MANUAL && e.instance == o.instance.value) &&
    (o.automatic == Some(false) && o.instance.None? ==> e.mode == MANUAL && e.instance == c.instance) &&
    (o.automatic.None? && o.instance.None? ==> e == c)
  }

  /** An edit is refused exactly when it asks for a new selection without automatic mode. */
  lemma OptionsExactly(c: Config, o: Options)
    ensures InstanceOptions(c, o).None? <==> o.reselect && o.automatic != Some(true)
    ensures InstanceOptions(c, o).Some? ==> Edits(c, o, InstanceOptions(c, o).value)
  {
  }

  /** An assignment is taken exactly from an open selection, of the revision it was made for and
      within the automatic range; it locks the instance and raises the revision. */
  lemma AssignsExactly(c: Config, expected: nat, instance: nat)
    ensures Assign(c, expected, instance).Some? <==>
      (c.mode in {AUTO_NEW, AUTO_CHECK_SAVED} && c.revision == expected && 599000 <= instance <= 599999)
    ensures Assign(c, expected, instance).Some? ==>
      var r := Assign(c, expected, instance).value;
      r.mode == AUTO_LOCKED && r.instance == instance &&
      (r.revision == c.revision + 1 || (c.revision + 1 >= REVISIONS && r.revision == (c.revision + 1) % REVISIONS))
  {
  }

  /** Migration leaves no legacy mode, changes nothing but the mode, and that exactly for a
      legacy configuration or a locked instance outside the automatic range. */
  lemma MigratesExactly(c: Config)
    ensures var m := Migrate(c);
      m == c.(mode := m.mode) &&
      m.mode != LEGACY &&
      (m.mode != c.mode <==> c.mode == LEGACY || (c.mode == AUTO_LOCKED && !(599000 <= c.instance <= 599999))) &&
      (m.mode != c.mode ==>
        m.mode == (if c.mode == LEGACY && c.instance == 599153 then AUTO_CHECK_SAVED else MANUAL))
  {
  }

  /** A `firmware_config_t` that is rewritten in place. */
  class Record {
    var instance: nat
    var mode: nat
    var revision: nat
    var settings: Settings

    ghost function View(): Config
      reads this
    {
      Config(instance, mode, revision, settings)
    }

    constructor (c: Config)
      ensures View() == c
    {
      instance, mode, revision, settings := c.instance, c.mode, c.revision, c.settings;
    }

    method Copy() returns (c: Config)
      ensures c == View()
    {
      c := Config(instance, mode, revision, settings);
    }

    method AssignInstance(expected: nat, chosen: nat) returns (ok: bool)
      modifies this
      ensures var result := Assign(old(View()), expected, chosen);
        ok == result.Some? && View() == if ok then result.value else old(View())
    {
      if (mode != AUTO_NEW && mode != AUTO_CHECK_SAVED) || revision != expected || chosen < FIRST || chosen > LAST {
        return false;
      }
      var defaultName := DefaultName(instance);
      if settings.deviceName == defaultName {
        settings := settings.(deviceName := DefaultName(chosen));
        var unique := NamesAreUnique(settings);
        if !unique {
          settings := settings.(deviceName := defaultName);
        }
      }
      instance := chosen;
      mode := AUTO_LOCKED;
      revision := (revision + 1) % REVISIONS;
      ok := true;
    }

    method MigrateMode() returns (changed: bool)
      modifies this`mode
      ensures View() == Migrate(old(View())) && changed == (View() != old(View()))
    {
      if mode == AUTO_LOCKED && (instance < FIRST || instance > LAST) {
        mode := MANUAL;
        return true;
      }
      if mode != LEGACY {
        return false;
      }
      mode := if instance == DEFAULT_INSTANCE then AUTO_CHECK_SAVED else MANUAL;
      changed := true;
    }

    method ApplyOptions(o: Options) returns (ok: bool)
      modifies this
      ensures var result := InstanceOptions(old(View()), o);
        ok == result.Some? && View() == if ok then result.value else old(View())
    {
      if o.reselect && (o.automatic.None? || !o.automatic.value) {
        return false;
      }
      if o.automatic.Some? && o.automatic.value {
        if o.reselect || mode == MANUAL {
          mode := AUTO_NEW;
        }
      } else if o.automatic.Some? || o.instance.Some? {
        mode := MANUAL;
        if o.instance.Some? {
          instance := o.instance.value;
        }
      }
      ok := true;
    }
  }

  // ----- the automatic rename ----------------------------------------------------------------

  function Power(d: nat): nat {
    if d == 0 then 1 else 10 * Power(d - 1)
  }

  lemma {:induction false} DecimalLength(n: nat, d: nat)
    requires 0 < d && n < Power(d)
    ensures |Decimal(n)| <= d
    decreases d
  {
    if n >= 10 {
      DecimalLength(n / 10, d - 1);
    }
  }

  lemma DefaultNamePrintable(n: nat)
    requires n <= INSTANCE_MAX
    ensures Printable(DefaultName(n), NAME_LEN, false)
  {
    assert Power(7) == 10000000;
    DecimalLength(n, 7);
  }

  /** Whether another object already carries that name. */
  predicate Taken(s: Settings, name: string) {
    exists i :: 1 <= i < |ObjectNames(s)| && SameName(name, ObjectNames(s)[i])
  }

  lemma RenameUnique(s: Settings, name: string)
    requires Unique(ObjectNames(s))
    ensures Unique(ObjectNames(s.(deviceName := name))) <==> !Taken(s, name)
  {
    var before, after := ObjectNames(s), ObjectNames(s.(deviceName := name));
    assert |after| == |before| && after[0] == name;
    assert forall i :: 1 <= i < |before| ==> after[i] == before[i];
    if !Taken(s, name) {
      forall i, j | 0 <= i < j < |after| ensures !SameName(after[i], after[j]) {
        assert !SameName(before[i], before[j]);
      }
    } else {
      var i :| 1 <= i < |before| && SameName(name, before[i]);
      assert SameName(after[0], after[i]);
    }
  }

  /** Assignment moves a default name along exactly when no other object has the new one, and
      leaves a valid configuration valid either way. */
  lemma AssignKeepsValid(c: Config, expected: nat, instance: nat)
    requires Validate(c) && Assign(c, expected, instance).Some?
    ensures var r := Assign(c, expected, instance).value;
      Validate(r) && r.instance == instance &&
      r.settings == c.settings.(deviceName := r.settings.deviceName) &&
      r.settings.deviceName ==
        (if c.settings.deviceName == DefaultName(c.instance) && !Taken(c.settings, DefaultName(instance))
         then DefaultName(instance) else c.settings.deviceName)
  {
    RenameUnique(c.settings, DefaultName(instance));
    DefaultNamePrintable(instance);
  }

  // ----- the defaults --------------------------------------------------------------------------

  const INPUT_NAMES: Names := [
    "Digital Input 1", "Digital Input 2", "Digital Input 3", "Digital Input 4",
    "Digital Input 5", "Digital Input 6", "Digital Input 7", "Digital Input 8"]

  const RELAY_NAMES: Names := [
    "Relay Output 1", "Relay Output 2", "Relay Output 3", "Relay Output 4",
    "Relay Output 5", "Relay Output 6", "Relay Output 7", "Relay Output 8"]

  const DEFAULT_NETWORK := Network(Some(0xC0000299), Some(0xFFFFFF00), Some(0xC0000201), Some(0xC0000201))

  const DEFAULT_SETTINGS := Settings(
    47808, 260, 0xFF, true, false, "bacnet-io-599153", "BACnet IO 599153", "BACnet Stack at SourceForge",
    "Uncommissioned", DEFAULT_NETWORK, INPUT_NAMES, RELAY_NAMES)

  /** `config_model_defaults`. */
  const DEFAULTS := Config(DEFAULT_INSTANCE, AUTO_NEW, 1, DEFAULT_SETTINGS)

  /** Where an object name of the defaults stands, from its length and last letter alone. */
  function Place(length: nat, last: char): int {
    if length == 16 then 0
    else if length == 15 then 1 + (last as int) - ('1' as int)
    else if length == 14 then 9 + (last as int) - ('1' as int)
    else if length == 20 then (if last == 'k' then 17 else 18)
    else if length == 23 then (if last == 'r' then 19 else 25)
    else if length == 18 then 20
    else if length == 21 then 21
    else if length == 22 then (if last == 's' then 22 else 26)
    else if length == 25 then 23
    else if length == 19 then 24
    else 27
  }

  lemma DefaultNamesHavePlaces(i: nat)
    requires i < 28
    ensures var names := ObjectNames(DEFAULT_SETTINGS);
      |names| == 28 && names[i] != "" && Place(|names[i]|, Lower(names[i][|names[i]| - 1])) == i
  {
  }

  lemma DefaultsAreUnique()
    ensures Unique(ObjectNames(DEFAULT_SETTINGS))
  {
    var names := ObjectNames(DEFAULT_SETTINGS);
    forall i, j | 0 <= i < j < |names| ensures !SameName(names[i], names[j]) {
      DefaultNamesHavePlaces(i);
      DefaultNamesHavePlaces(j);
    }
  }

  lemma ChannelsArePrintable(i: nat)
    requires i < 8
    ensures Printable(INPUT_NAMES[i], NAME_LEN, false) && Printable(RELAY_NAMES[i], NAME_LEN, false)
  {
  }

  lemma TextsArePrintable()
    ensures Printable("BACnet IO 599153", NAME_LEN, false) && Printable("Uncommissioned", LOCATION_LEN, true)
    ensures Printable("BACnet Stack at SourceForge", VENDOR_NAME_LEN, false)
    ensures HostnameValid("bacnet-io-599153")
  {
  }

  /** The factory name is the default name of the factory instance, so an assignment moves it. */
  lemma FactoryNameIsDefault()
    ensures DEFAULTS.settings.deviceName == DefaultName(DEFAULTS.instance)
  {
    assert Decimal(5) == "5" && Decimal(59) == "59" && Decimal(599) == "599";
    assert Decimal(5991) == "5991" && Decimal(59915) == "59915" && Decimal(599153) == "599153";
  }

  lemma DefaultsAreValid()
    ensures Validate(DEFAULTS) && Settled(DEFAULTS)
  {
    DefaultsAreUnique();
    TextsArePrintable();
    forall n | n in INPUT_NAMES || n in RELAY_NAMES ensures Printable(n, NAME_LEN, false) {
      var i :| 0 <= i < 8 && (INPUT_NAMES[i] == n || RELAY_NAMES[i] == n);
      ChannelsArePrintable(i);
    }
  }
}
