/** Choosing the destination of an alert: the resolver of the event filtering process, the
    test dispatcher and the trap sender's manager list. */
module Destinations {
  import opened Types
  import opened Json
  import opened EntryPath
  import opened FilterTable
  import opened AlertPolicy
  import opened PefAction
  import L = LanConfig

  // ---- values of one interface's Config

  /** An array of numbers as bytes: empty when the key is missing or no array, None when an
      element is not a number (the type error the caller catches). */
  function ByteArray(cfg: Json, key: string): Option<seq<uint8>> {
    if L.Has(cfg, key) && cfg.members[key].Arr? then
      var elems := cfg.members[key].elems;
      if forall e | e in elems :: e.Num? then
        Some(seq(|elems|, i requires 0 <= i < |elems| => if elems[i].Num? then CastU8(elems[i].n) else 0))
      else None
    else Some([])
  }

  function TextArray(cfg: Json, key: string): Option<seq<string>> {
    if L.Has(cfg, key) && cfg.members[key].Arr? then
      var elems := cfg.members[key].elems;
      if forall e | e in elems :: e.Str? then
        Some(seq(|elems|, i requires 0 <= i < |elems| => if elems[i].Str? then elems[i].s else ""))
      else None
    else Some([])
  }

  function TextValue(cfg: Json, key: string): Option<string> {
    if !cfg.Obj? then None
    else if key in cfg.members then if cfg.members[key].Str? then Some(cfg.members[key].s) else None
    else Some("")
  }

  /** The interface's Config, when it has one. */
  function ConfigOf(lanData: Option<Json>): Option<Json> {
    L.Read(lanData, [L.CONFIG])
  }

  // ---- the resolvers, as type array and selector to index (ActionIndex is the action process's)

  /** dispatchTestDestination: selector 0 is refused, then the index must lie in the array. */
  function TestIndex(types: seq<uint8>, sel: uint8): Option<nat> {
    if sel == 0 then None else if sel - 1 >= |types| then None else Some(sel - 1)
  }

  const SIZE_T := 0x1_0000_0000_0000_0000

  /** getManagers: the index is the selector minus one as an unsigned number, so selector 0
      gives one no array reaches. */
  function ManagerIndex(types: seq<uint8>, sel: uint8): Option<nat> {
    var selectedIndex := (sel - 1) % SIZE_T;
    if selectedIndex >= |types| then None else Some(selectedIndex)
  }

  /** The resolvers of the test dispatcher and the trap sender agree on every selector (no
      array has 2^64 elements); the action resolver agrees with them on every selector from
      1 up except the last destination, which it never reaches. */
  lemma {:induction false} ResolversAgree(types: seq<uint8>, sel: uint8)
    requires |types| < SIZE_T
    ensures TestIndex(types, sel) == ManagerIndex(types, sel)
    ensures sel >= 1 ==> (ActionIndex(types, sel) == TestIndex(types, sel) <==> sel != |types|)
  {
  }

  // ---- the trap sender

  const SNMP_TRAP_PORT := 162

  /** The address SNMP sends to; empty for no address and for the all-zero defaults. */
  function FormatPeerAddress(address: string, addressType: uint8): string {
    if address == "" then ""
    else if (addressType == 1 && address == "0.0.0.0")
            || (addressType == 2 && address == "0000:0000:0000:0000:0000:0000:0000:0000") then ""
    else if addressType == 2 && address[0] != '[' then "[" + address + "]:" + Decimal(SNMP_TRAP_PORT)
    else address + ":" + Decimal(SNMP_TRAP_PORT)
  }

  datatype ManagerProperty = ManagerProperty(
    ipaddress: string, version: string, community: string, userName: string,
    algorithm: string, encryption: string, password: string)

  /** The properties of an SNMPv3 user as D-Bus and decryption give them. */
  datatype SnmpUser = SnmpUser(algorithm: string, encryption: string, password: string)

  datatype LanArrays = LanArrays(
    types: seq<uint8>, addressTypes: seq<uint8>, ipv4: seq<string>, ipv6: seq<string>, users: seq<string>,
    community: string)

  function ReadArrays(cfg: Json): Option<LanArrays> {
    var types, addressTypes := ByteArray(cfg, "Type"), ByteArray(cfg, "AddressType");
    var ipv4, ipv6, users := TextArray(cfg, "IPv4"), TextArray(cfg, "IPv6"), TextArray(cfg, "UserName");
    var community := TextValue(cfg, "CommunityString");
    if types.Some? && addressTypes.Some? && ipv4.Some? && ipv6.Some? && users.Some? && community.Some?
    then Some(LanArrays(types.value, addressTypes.value, ipv4.value, ipv6.value, users.value, community.value))
    else None
  }

  /** The peer address of destination i, empty when there is none. */
  function Peer(a: LanArrays, i: nat): string {
    if i >= |a.addressTypes| then ""
    else if a.addressTypes[i] == 1 && i < |a.ipv4| then FormatPeerAddress(a.ipv4[i], 1)
    else if a.addressTypes[i] == 2 && i < |a.ipv6| then FormatPeerAddress(a.ipv6[i], 2)
    else ""
  }

  /** Destination i can be sent a trap. */
  predicate Sendable(a: LanArrays, i: nat, users: string -> Option<SnmpUser>) {
    && i < |a.types|
    && Peer(a, i) != ""
    && ((a.types[i] <= 1 && a.community != "")
        || (a.types[i] == 2 && i < |a.users| && a.users[i] != "" && users(a.users[i]).Some?))
  }

  /** The SNMP version of a destination type from 0 to 2. */
  function VersionOf(destinationType: uint8): string {
    if destinationType == 0 then "v1" else if destinationType == 1 then "v2c" else "v3"
  }

  function ManagerAt(a: LanArrays, i: nat, users: string -> Option<SnmpUser>): ManagerProperty
    requires Sendable(a, i, users)
  {
    if a.types[i] <= 1 then ManagerProperty(Peer(a, i), VersionOf(a.types[i]), a.community, "", "", "", "")
    else
      var u := users(a.users[i]).value;
      ManagerProperty(Peer(a, i), "v3", "", a.users[i], u.algorithm, u.encryption, u.password)
  }

  /** The manager for a destination selector: the destination at the trap sender's index, when
      it can be sent a trap. */
  function Selection(file: Json, iface: string, sel: uint8, users: string -> Option<SnmpUser>): Option<ManagerProperty>
  {
    var cfg := ConfigOf(L.DirectData(file, iface));
    if cfg.None? || ReadArrays(cfg.value).None? then None
    else
      SelectedManager(ReadArrays(cfg.value).value, sel, users)
  }

  function SelectedManager(a: LanArrays, sel: uint8, users: string -> Option<SnmpUser>): Option<ManagerProperty> {
    var i := ManagerIndex(a.types, sel);
    if i.Some? && Sendable(a, i.value, users) then Some(ManagerAt(a, i.value, users)) else None
  }

  /** The file, or None when it cannot be opened or parsed, and both filters as the caller
      gave them. At most one manager is returned, and it is the sendable destination the
      filters select. */
  method GetManagers(file: Option<Json>, ethMap: map<uint8, string>, channelNoFilter: Option<uint8>,
      destinationSelFilter: Option<uint8>, users: string -> Option<SnmpUser>)
    returns (managers: seq<ManagerProperty>)
    ensures |managers| <= 1
    ensures managers
            == if file.None? || channelNoFilter.None? || destinationSelFilter.None? || channelNoFilter.value !in ethMap
               then []
               else ListOf(Selection(file.value, ethMap[channelNoFilter.value], destinationSelFilter.value, users))
  {
    managers := [];
    if channelNoFilter.None? || channelNoFilter.value !in ethMap || file.None? {
      return;
    }
    var lanData := L.DirectData(file.value, ethMap[channelNoFilter.value]);
    var config := ConfigOf(lanData);
    if config.None? {
      return;
    }
    var arrays := ReadArrays(config.value);
    if arrays.None? || destinationSelFilter.None? {
      return;
    }
    var a := arrays.value;
    var selectedIndex := (destinationSelFilter.value - 1) % SIZE_T;
    if selectedIndex >= |a.types| {
      return;
    }
    var selected := selectedIndex;
    if selected >= |a.addressTypes| {
      return; // addressType.at throws and is caught
    }
    var typeValue, addressTypeValue := a.types[selected], a.addressTypes[selected];
    if typeValue == 3 {
      return;
    }
    var rawAddress := "";
    if addressTypeValue == 1 && selected < |a.ipv4| {
      rawAddress := a.ipv4[selected];
    } else if addressTypeValue == 2 && selected < |a.ipv6| {
      rawAddress := a.ipv6[selected];
    } else {
      return;
    }
    var peer := FormatPeerAddress(rawAddress, addressTypeValue);
    if peer == "" {
      return;
    }
    if typeValue == 0 || typeValue == 1 {
      if a.community == "" {
        return;
      }
      var version := if typeValue == 0 then "v1" else "v2c";
      managers := managers + [ManagerProperty(peer, version, a.community, "", "", "", "")];
    } else if typeValue == 2 {
      if selected >= |a.users| || a.users[selected] == "" {
        return;
      }
      var answer := users(a.users[selected]);
      if answer.None? {
        return;
      }
      var user := answer.value;
      managers := managers + [ManagerProperty(peer, "v3", "", a.users[selected], user.algorithm, user.encryption,
                                              user.password)];
    }
  }

  // ---- the manager in terms of the file

  predicate HasNumber(cfg: Json, key: string, i: nat) {
    cfg.Obj? && key in cfg.members && cfg.members[key].Arr? && i < |cfg.members[key].elems|
    && cfg.members[key].elems[i].Num?
  }

  predicate HasText(cfg: Json, key: string, i: nat) {
    cfg.Obj? && key in cfg.members && cfg.members[key].Arr? && i < |cfg.members[key].elems|
    && cfg.members[key].elems[i].Str?
  }

  /** Element i of an array of numbers, as a byte. */
  function NumberAt(cfg: Json, key: string, i: nat): uint8
    requires HasNumber(cfg, key, i)
  {
    cfg.members[key].elems[i].n % 0x100
  }

  function TextAt(cfg: Json, key: string, i: nat): string
    requires HasText(cfg, key, i)
  {
    cfg.members[key].elems[i].s
  }

  /** The manager's address is element i of the array for its address type, with port 162; an
      IPv6 address is put in brackets, and the all-zero defaults do not count. */
  predicate AddressFor(cfg: Json, i: nat, peer: string) {
    && HasNumber(cfg, "AddressType", i)
    && var addressType := NumberAt(cfg, "AddressType", i);
       || (&& addressType == 1 && HasText(cfg, "IPv4", i)
           && var address := TextAt(cfg, "IPv4", i);
              address != "" && address != "0.0.0.0" && peer == address + ":162")
       || (&& addressType == 2 && HasText(cfg, "IPv6", i)
           && var address := TextAt(cfg, "IPv6", i);
              && address != "" && address != "0000:0000:0000:0000:0000:0000:0000:0000"
              && peer == if address[0] == '[' then address + ":162" else "[" + address + "]:162")
  }

  /** The manager for destination i: versions 1 and 2c with the community, version 3 with the
      user at i and the user's stored properties. */
  predicate ManagerFor(cfg: Json, i: nat, users: string -> Option<SnmpUser>, m: ManagerProperty) {
    && HasNumber(cfg, "Type", i)
    && AddressFor(cfg, i, m.ipaddress)
    && var destinationType := NumberAt(cfg, "Type", i);
       || (&& destinationType <= 1
           && m.version == (if destinationType == 0 then "v1" else "v2c")
           && m.community != ""
           && "CommunityString" in cfg.members && cfg.members["CommunityString"] == Str(m.community)
           && m.userName == m.algorithm == m.encryption == m.password == "")
       || (&& destinationType == 2 && m.version == "v3" && m.community == ""
           && HasText(cfg, "UserName", i) && m.userName == TextAt(cfg, "UserName", i) != ""
           && users(m.userName) == Some(SnmpUser(m.algorithm, m.encryption, m.password)))
  }

  predicate AllNumbers(cfg: Json, key: string)
    requires cfg.Obj?
  {
    key in cfg.members && cfg.members[key].Arr? ==> forall e | e in cfg.members[key].elems :: e.Num?
  }

  predicate AllTexts(cfg: Json, key: string)
    requires cfg.Obj?
  {
    key in cfg.members && cfg.members[key].Arr? ==> forall e | e in cfg.members[key].elems :: e.Str?
  }

  /** The Config is an object whose arrays hold values of their types. */
  predicate Convertible(cfg: Json) {
    && cfg.Obj?
    && AllNumbers(cfg, "Type") && AllNumbers(cfg, "AddressType")
    && AllTexts(cfg, "IPv4") && AllTexts(cfg, "IPv6") && AllTexts(cfg, "UserName")
    && ("CommunityString" in cfg.members ==> cfg.members["CommunityString"].Str?)
  }

  lemma {:induction false} ArraysReadable(cfg: Json)
    ensures ReadArrays(cfg).Some? <==> Convertible(cfg)
  {
  }

  lemma {:induction false} PortText()
    ensures Decimal(SNMP_TRAP_PORT) == "162"
  {
    assert Decimal(1) == "1" && Decimal(16) == "16";
  }

  lemma {:induction false} PeerMeaning(cfg: Json, a: LanArrays, i: nat, peer: string)
    requires ReadArrays(cfg) == Some(a)
    ensures peer != "" && Peer(a, i) == peer <==> AddressFor(cfg, i, peer)
  {
    PortText();
  }

  lemma {:induction false} ManagerMeaning(cfg: Json, a: LanArrays, i: nat, users: string -> Option<SnmpUser>,
      m: ManagerProperty)
    requires cfg.Obj? && ReadArrays(cfg) == Some(a)
    ensures Sendable(a, i, users) && ManagerAt(a, i, users) == m <==> ManagerFor(cfg, i, users, m)
  {
    PeerMeaning(cfg, a, i, m.ipaddress);
    PeerMeaning(cfg, a, i, Peer(a, i));
  }

  /** A manager is selected exactly when the interface's Config has arrays of the right types and
      describes that manager at selector minus one. */
  lemma {:induction false} SelectionMeaning(file: Json, iface: string, sel: uint8, users: string -> Option<SnmpUser>,
      m: ManagerProperty)
    requires var cfg := ConfigOf(L.DirectData(file, iface));
             cfg.Some? && ReadArrays(cfg.value).Some? ==> |ReadArrays(cfg.value).value.types| < SIZE_T
    ensures Selection(file, iface, sel, users) == Some(m)
            <==> && ConfigOf(L.DirectData(file, iface)).Some?
                 && var cfg := ConfigOf(L.DirectData(file, iface)).value;
                    Convertible(cfg) && sel >= 1 && ManagerFor(cfg, sel - 1, users, m)
  {
    var cfg := ConfigOf(L.DirectData(file, iface));
    if cfg.Some? {
      ArraysReadable(cfg.value);
    }
    if cfg.Some? && ReadArrays(cfg.value).Some? {
      SelectedMeaning(cfg.value, ReadArrays(cfg.value).value, sel, users, m);
    }
  }

  lemma {:induction false} SelectedMeaning(cfg: Json, a: LanArrays, sel: uint8, users: string -> Option<SnmpUser>,
      m: ManagerProperty)
    requires cfg.Obj? && ReadArrays(cfg) == Some(a) && |a.types| < SIZE_T
    ensures SelectedManager(a, sel, users) == Some(m) <==> sel >= 1 && ManagerFor(cfg, sel - 1, users, m)
  {
    ManagerIndexCases(a.types, sel);
    if sel >= 1 {
      ManagerMeaning(cfg, a, sel - 1, users, m);
    }
  }

  lemma {:induction false} ManagerIndexCases(types: seq<uint8>, sel: uint8)
    requires |types| < SIZE_T
    ensures ManagerIndex(types, sel) == if 1 <= sel <= |types| then Some(sel - 1) else None
  {
  }

  // ---- the test dispatcher

  datatype TestSend =
    | TestTrap(channelNo: uint8, destinationSel: uint8)
    | TestMail(mailId: string)

  /** Element i of an array, None when the key is missing, no array or too short. */
  function ElementAt(cfg: Json, key: string, i: nat): Option<Json> {
    if L.Has(cfg, key) && cfg.members[key].Arr? && i < |cfg.members[key].elems| then Some(cfg.members[key].elems[i])
    else None
  }

  /** The type of the tested destination, when the configuration has one. */
  function TestedType(iface: Option<string>, file: Option<Json>, destinationSel: uint8): Option<uint8> {
    if iface.None? || file.None? || destinationSel == 0 then None
    else
      var cfg := ConfigOf(L.DirectData(file.value, iface.value));
      if cfg.None? then None
      else
        var element := ElementAt(cfg.value, "Type", destinationSel - 1);
        if element.Some? && element.value.Num? then Some(CastU8(element.value.n)) else None
  }

  /** The user a tested mail destination names. */
  function TestedUser(iface: string, file: Json, destinationSel: uint8): Option<string>
    requires destinationSel >= 1
  {
    var cfg := ConfigOf(L.DirectData(file, iface));
    if cfg.None? then None
    else
      var element := ElementAt(cfg.value, "UserName", destinationSel - 1);
      if element.Some? && element.value.Str? then Some(element.value.s) else None
  }

  /** The interface's Config has a type for the destination. */
  predicate Tested(iface: Option<string>, file: Option<Json>, destinationSel: uint8) {
    && iface.Some? && file.Some? && destinationSel >= 1
    && ConfigOf(L.DirectData(file.value, iface.value)).Some?
    && HasNumber(ConfigOf(L.DirectData(file.value, iface.value)).value, "Type", destinationSel - 1)
  }

  function TypeUnderTest(iface: Option<string>, file: Option<Json>, destinationSel: uint8): uint8
    requires Tested(iface, file, destinationSel)
  {
    NumberAt(ConfigOf(L.DirectData(file.value, iface.value)).value, "Type", destinationSel - 1)
  }

  /** What is sent for a test of a destination, if anything: a trap for every SNMP type, mail
      for type 3 when its user has an address, and nothing otherwise. */
  method DispatchTestDestination(iface: Option<string>, file: Option<Json>, channelNo: uint8, destinationSel: uint8,
      mailId: string -> Option<string>)
    returns (sends: Option<TestSend>)
    ensures var t := TestedType(iface, file, destinationSel);
            && (t.None? || (t.value > 3) ==> sends.None?)
            && (t.Some? && t.value <= 2 ==> sends == Some(TestTrap(channelNo, destinationSel)))
            && (t.Some? && t.value == 3 ==>
                  var user := TestedUser(iface.value, file.value, destinationSel);
                  if user.Some? && mailId(user.value).Some? && mailId(user.value).value != ""
                  then sends == Some(TestMail(mailId(user.value).value))
                  else sends.None?)
    ensures sends == Some(TestTrap(channelNo, destinationSel))
            <==> Tested(iface, file, destinationSel) && TypeUnderTest(iface, file, destinationSel) <= 2
    ensures forall address ::
              (sends == Some(TestMail(address))
               <==> && Tested(iface, file, destinationSel)
                    && TypeUnderTest(iface, file, destinationSel) == 3
                    && var cfg := ConfigOf(L.DirectData(file.value, iface.value)).value;
                       && HasText(cfg, "UserName", destinationSel - 1)
                       && mailId(TextAt(cfg, "UserName", destinationSel - 1)) == Some(address)
                       && address != "")
  {
    sends := None;
    if destinationSel == 0 || iface.None? {
      return;
    }
    if file.None? {
      return;
    }
    var config := ConfigOf(L.DirectData(file.value, iface.value));
    if config.None? {
      return;
    }
    var cfg := config.value;
    if !L.Has(cfg, "Type") || !cfg.members["Type"].Arr? {
      return;
    }
    var typeArr := cfg.members["Type"].elems;
    var selectedIndex := destinationSel - 1;
    if selectedIndex >= |typeArr| || !typeArr[selectedIndex].Num? {
      return;
    }
    var destinationType := CastU8(typeArr[selectedIndex].n);
    if destinationType <= 2 {
      return Some(TestTrap(channelNo, destinationSel));
    }
    if destinationType == 3 {
      if !L.Has(cfg, "UserName") || !cfg.members["UserName"].Arr? {
        return;
      }
      var userArr := cfg.members["UserName"].elems;
      if selectedIndex >= |userArr| || !userArr[selectedIndex].Str? {
        return;
      }
      var smtpMailId := mailId(userArr[selectedIndex].s);
      if smtpMailId.None? || smtpMailId.value == "" {
        return;
      }
      return Some(TestMail(smtpMailId.value));
    }
  }

  /** Over a well-typed array the tested type is the one at the test resolver's index. */
  lemma {:induction false} TestedTypeIndex(iface: string, file: Json, destinationSel: uint8, cfg: Json,
      types: seq<uint8>)
    requires ConfigOf(L.DirectData(file, iface)) == Some(cfg) && ByteArray(cfg, "Type") == Some(types)
    ensures TestedType(Some(iface), Some(file), destinationSel)
            == var i := TestIndex(types, destinationSel); if i.Some? then Some(types[i.value]) else None
  {
  }

  // ---- the writer's paths are the readers'

  /** What the writer stores for a property, under a selector path or not, is what the test
      dispatcher and the trap sender find under the interface's Config. */
  lemma {:induction false} ConfigSeesWrite(data: Json, iface: string, prop: string, selectorPath: Option<string>,
      value: Json)
    requires iface != L.INTERFACES
    requires Put(data, L.WritePath(data, iface, L.PropertyPath(selectorPath, prop)), value).Some?
    ensures var saved := Put(data, L.WritePath(data, iface, L.PropertyPath(selectorPath, prop)), value).value;
            var cfg := ConfigOf(L.DirectData(saved, iface));
            && cfg.Some?
            && cfg.value.Obj?
            && (selectorPath.None? ==> prop in cfg.value.members && cfg.value.members[prop] == value)
            && (selectorPath.Some? ==> Get(cfg.value, L.Segments(selectorPath.value) + [prop]) == Some(value))
  {
    var path := L.PropertyPath(selectorPath, prop);
    var below := (if selectorPath.Some? then L.Segments(selectorPath.value) else []) + [prop];
    L.ReadersSeeWrite(data, iface, path, value, None);
    assert path == [L.CONFIG] + below;
    assert [L.CONFIG] + [] == [L.CONFIG] && [prop] + [] == [prop] && [] + [prop] == [prop];
    var lan := L.DirectData(Put(data, L.WritePath(data, iface, path), value).value, iface);
    L.GetStep(lan.value, L.CONFIG, below);
    L.GetStep(lan.value, L.CONFIG, []);
    L.GetStep(lan.value.members[L.CONFIG], prop, []);
    assert below != [];
  }

  // ---- an SNMP alert is not dropped as mail

  /** When the D-Bus type array is the file's, an alert sent as SNMP selects a destination that
      the trap sender takes at the same index and as SNMP too: it is dropped only when it
      cannot be sent, and the manager's version is that of its type. */
  lemma {:induction false} SnmpStaysSnmp(policy: AlertPolicyTbl, r: nat, p: nat, ev: EventMsgData,
      ethMap: EthChannelMap, answers: Answers, iface: string, file: Json, cfg: Json, a: LanArrays,
      users: string -> Option<SnmpUser>)
    requires NamesInterface(ethMap, policy.channelNo, iface)
    requires AlertStep(policy, r, p, ev, ethMap, answers).Some?
    requires AlertStep(policy, r, p, ev, ethMap, answers).value.attempt.SnmpAlert?
    requires ConfigOf(L.DirectData(file, iface)) == Some(cfg)
    requires ReadArrays(cfg) == Some(a)
    requires TypesOf(answers.lanParams(r, p, iface)) == a.types
    ensures 1 <= policy.destinationSel < |a.types| && a.types[policy.destinationSel - 1] <= 2
    ensures var i := policy.destinationSel - 1;
            var manager := Selection(file, iface, policy.destinationSel, users);
            && (manager.Some? <==> Sendable(a, i, users))
            && (manager.Some? ==> manager.value.version == VersionOf(a.types[i]))
  {
    InterfaceNameMeaning(ethMap, policy.channelNo, iface);
    SnmpIndex(policy, r, p, ev, ethMap, answers, a.types);
    SelectionAt(file, iface, policy.destinationSel, cfg, a, users);
  }

  lemma {:induction false} SnmpIndex(policy: AlertPolicyTbl, r: nat, p: nat, ev: EventMsgData, ethMap: EthChannelMap,
      answers: Answers, types: seq<uint8>)
    requires AlertStep(policy, r, p, ev, ethMap, answers).Some?
    requires AlertStep(policy, r, p, ev, ethMap, answers).value.attempt.SnmpAlert?
    requires TypesOf(answers.lanParams(r, p, InterfaceName(policy.channelNo, ethMap))) == types
    ensures 1 <= policy.destinationSel < |types| && types[policy.destinationSel - 1] <= 2
  {
  }

  lemma {:induction false} SelectionAt(file: Json, iface: string, sel: uint8, cfg: Json, a: LanArrays,
      users: string -> Option<SnmpUser>)
    requires ConfigOf(L.DirectData(file, iface)) == Some(cfg) && ReadArrays(cfg) == Some(a)
    requires 1 <= sel <= |a.types| && a.types[sel - 1] <= 2
    ensures var manager := Selection(file, iface, sel, users);
            && (manager.Some? <==> Sendable(a, sel - 1, users))
            && (manager.Some? ==> manager.value.version == VersionOf(a.types[sel - 1]))
  {
    assert Selection(file, iface, sel, users) == SelectedManager(a, sel, users);
    ManagerIndexAt(a.types, sel);
  }

  lemma {:induction false} ManagerIndexAt(types: seq<uint8>, sel: uint8)
    requires 1 <= sel <= |types|
    ensures ManagerIndex(types, sel) == Some(sel - 1)
  {
  }
}
