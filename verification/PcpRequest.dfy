/** PCP requests: from the bytes of a packet through option parsing and validation to the mapping
    table. */
module PcpRequest {
  import opened Wrappers
  import opened CodeLength
  import opened SeqTools
  import opened Permissions
  import opened PortMapping

  const MIN_LEN: nat := 24
  const MAX_LEN: nat := 1100
  const COMMON_SIZE: nat := 24
  const MAP_V1_SIZE: nat := 24
  const MAP_V2_SIZE: nat := 36

  const OPCODE_ANNOUNCE: nat := 0
  const OPCODE_MAP: nat := 1
  const OPCODE_PEER: nat := 2

  // result codes, RFC 6887 section 7.4
  const UNSUPP_VERSION: nat := 1
  const MALFORMED_REQUEST: nat := 3
  const UNSUPP_OPCODE: nat := 4
  const UNSUPP_OPTION: nat := 5
  const MALFORMED_OPTION: nat := 6
  const NETWORK_FAILURE: nat := 7
  const CANNOT_PROVIDE_EXTERNAL: nat := 11
  const ADDRESS_MISMATCH: nat := 12

  // option codes, RFC 6887 sections 13.1 to 13.3
  const THIRD_PARTY: Byte := 1
  const PREFER_FAILURE: Byte := 2
  const FILTER: Byte := 3

  type Ip = s: seq<Byte> | |s| == 16 witness [0, 0, 0, 0, 0, 0, 0, 0, 0, 0, 0, 0, 0, 0, 0, 0]

  const UNSPECIFIED: Ip := [0, 0, 0, 0, 0, 0, 0, 0, 0, 0, 0, 0, 0, 0, 0, 0]
  const V4_PREFIX: seq<Byte> := [0, 0, 0, 0, 0, 0, 0, 0, 0, 0, 0xff, 0xff]

  /** Configuration; `external` is the external address, None when it cannot be determined. */
  datatype Config = Config(minLifetime: nat, maxLifetime: nat, allowThirdParty: bool, external: Option<Ip>)

  function Read16(b: seq<Byte>, p: nat): Port
    requires p + 2 <= |b|
  {
    (b[p] as int) * 256 + b[p + 1]
  }

  function Read32(b: seq<Byte>, p: nat): nat
    requires p + 4 <= |b|
  {
    Read16(b, p) * 65536 + Read16(b, p + 2)
  }

  predicate IsV4Mapped(ip: Ip) {
    ip[..12] == V4_PREFIX
  }

  // ---------- options ----------

  datatype PcpOption = PcpOption(code: Byte, data: seq<Byte>)

  /** What the options seen so far have set. */
  datatype OptionState = OptionState(thirdParty: Option<Ip>, preferFailure: bool)

  const NO_OPTIONS := OptionState(None, false)

  /** The option at pos and where the next one starts; the data are padded to a multiple of four. */
  function Frame(b: seq<Byte>, pos: nat): (r: Option<(PcpOption, nat)>)
    requires pos <= |b| && (|b| - pos) % 4 == 0
    ensures r.Some? ==> pos < r.value.1 <= |b| && (|b| - r.value.1) % 4 == 0
  {
    if |b| - pos < 4 then None
    else
      var length := Read16(b, pos + 2);
      if |b| - pos - 4 < length then None
      else Some((PcpOption(b[pos], b[pos + 4..pos + 4 + length]), pos + 4 + (length + 3) / 4 * 4))
  }

  /** An option that makes sense in a request with this opcode and lifetime. */
  predicate OptionOk(o: PcpOption, opcode: nat, lifetime: nat) {
    if o.code == THIRD_PARTY then |o.data| == 16
    else if o.code == PREFER_FAILURE then |o.data| == 0 && lifetime > 0 && opcode == OPCODE_MAP
    else if o.code == FILTER then
      && |o.data| == 20 && lifetime > 0 && opcode == OPCODE_MAP
      && o.data[1] <= 128 && (o.data[4..16] == V4_PREFIX ==> o.data[1] >= 96)
    else o.code >= 128
  }

  function Apply(o: PcpOption, opcode: nat, lifetime: nat, s: OptionState): Option<OptionState> {
    if !OptionOk(o, opcode, lifetime) then None
    else if o.code == THIRD_PARTY then (if s.thirdParty.Some? then None else Some(s.(thirdParty := Some(o.data))))
    else if o.code == PREFER_FAILURE then (if s.preferFailure then None else Some(s.(preferFailure := true)))
    else Some(s)
  }

  /** The state after all options from pos on, None if one of them is in error. */
  function Options(b: seq<Byte>, pos: nat, opcode: nat, lifetime: nat, s: OptionState): Option<OptionState>
    requires pos <= |b| && (|b| - pos) % 4 == 0
    decreases |b| - pos
  {
    if pos == |b| then Some(s)
    else match Frame(b, pos)
      case None => None
      case Some((o, next)) =>
        match Apply(o, opcode, lifetime, s)
        case None => None
        case Some(s') => Options(b, next, opcode, lifetime, s')
  }

  /** What parsing makes of an option: the error that it is answered with, 0 for none, and whether
      parsing ends with it. */
  datatype Judgement = Judgement(code: nat, last: bool)

  function Judge(o: PcpOption, opcode: nat, lifetime: nat, s: OptionState): Judgement {
    if o.code == THIRD_PARTY then
      if |o.data| != 16 || s.thirdParty.Some? then Judgement(MALFORMED_OPTION, true) else Judgement(0, false)
    else if o.code == PREFER_FAILURE then
      if opcode == OPCODE_PEER then Judgement(MALFORMED_REQUEST, true)
      else if |o.data| != 0 || lifetime == 0 then Judgement(MALFORMED_OPTION, true)
      else if s.preferFailure then Judgement(MALFORMED_OPTION, false)
      else Judgement(if opcode == OPCODE_MAP then 0 else MALFORMED_REQUEST, false)
    else if o.code == FILTER then
      if |o.data| != 20 || lifetime == 0 || o.data[1] > 128 then Judgement(MALFORMED_OPTION, true)
      else if o.data[4..16] == V4_PREFIX && o.data[1] < 96 then Judgement(MALFORMED_OPTION, true)
      else if opcode != OPCODE_MAP then Judgement(MALFORMED_REQUEST, true)
      else Judgement(0, false)
    else Judgement(if o.code < 128 then UNSUPP_OPTION else 0, false)
  }

  /** The state behind an option with which parsing does not end. */
  function Noted(o: PcpOption, s: OptionState): OptionState {
    if o.code == THIRD_PARTY && |o.data| == 16 then s.(thirdParty := Some(o.data))
    else if o.code == PREFER_FAILURE then s.(preferFailure := true)
    else s
  }

  /** The result code after the options from pos on: a later error takes the place of an earlier one. */
  function OptionsCode(b: seq<Byte>, pos: nat, opcode: nat, lifetime: nat, s: OptionState, code: nat): nat
    requires pos <= |b| && (|b| - pos) % 4 == 0
    decreases |b| - pos
  {
    if pos == |b| then code
    else match Frame(b, pos)
      case None => MALFORMED_OPTION
      case Some((o, next)) =>
        var j := Judge(o, opcode, lifetime, s);
        var code' := if j.code != 0 then j.code else code;
        if j.last then code' else OptionsCode(b, next, opcode, lifetime, Noted(o, s), code')
  }

  lemma Judged(o: PcpOption, opcode: nat, lifetime: nat, s: OptionState)
    ensures Apply(o, opcode, lifetime, s)
         == if Judge(o, opcode, lifetime, s).code == 0 then Some(Noted(o, s)) else None
  {
  }

  /** There is an error code exactly when one of the options is in error. */
  lemma {:induction false} CodeIsError(b: seq<Byte>, pos: nat, opcode: nat, lifetime: nat, s: OptionState, code: nat)
    requires pos <= |b| && (|b| - pos) % 4 == 0
    ensures OptionsCode(b, pos, opcode, lifetime, s, code) == 0
       <==> code == 0 && Options(b, pos, opcode, lifetime, s).Some?
    decreases |b| - pos
  {
    hide Judge, Noted, Apply;
    if pos < |b| && Frame(b, pos).Some? {
      var (o, next) := Frame(b, pos).value;
      var j := Judge(o, opcode, lifetime, s);
      Judged(o, opcode, lifetime, s);
      CodeIsError(b, next, opcode, lifetime, Noted(o, s), if j.code != 0 then j.code else code);
      LastIsError(o, opcode, lifetime, s);
    }
  }

  lemma LastIsError(o: PcpOption, opcode: nat, lifetime: nat, s: OptionState)
    ensures var j := Judge(o, opcode, lifetime, s); j.last ==> j.code != 0
  {
  }

  // ---------- validation ----------

  datatype Outcome = Ignored | Rejected(code: nat) | Announced | Firewall | Map(request: Request)

  function Clamp(lifetime: nat, cfg: Config): nat {
    var l := if lifetime > cfg.maxLifetime then cfg.maxLifetime else lifetime;
    if l < cfg.minLifetime && l != 0 then cfg.minLifetime else l
  }

  function Hex(n: nat): char
    requires n < 16
  {
    "0123456789abcdef"[n]
  }

  function HexByte(c: Byte): string {
    [Hex(c / 16), Hex(c % 16)]
  }

  /** %08x of a word that was copied as four bytes, on a little-endian machine. */
  function HexWord(w: seq<Byte>): string
    requires |w| == 4
  {
    HexByte(w[3]) + HexByte(w[2]) + HexByte(w[1]) + HexByte(w[0])
  }

  function MapDesc(nonce: seq<Byte>): string
    requires |nonce| == 12
  {
    "PCP MAP " + HexWord(nonce[..4]) + HexWord(nonce[4..8]) + HexWord(nonce[8..])
  }

  /** inet_ntop(AF_INET) of the last four bytes */
  function PrintV4(ip: Ip): string {
    Decimal(ip[12]) + "." + Decimal(ip[13]) + "." + Decimal(ip[14]) + "." + Decimal(ip[15])
  }

  function V4Number(ip: Ip): bv32 {
    ((((ip[12] as int) * 256 + ip[13]) * 256 + ip[14]) * 256 + ip[15]) as bv32
  }

  /** The fields of a MAP request behind the common header. */
  datatype MapFields = MapFields(nonce: seq<Byte>, protocol: Byte, intPort: Port, extPort: Port, extIp: Ip)

  function Fields(b: seq<Byte>): (f: MapFields)
    requires |b| >= COMMON_SIZE && |b| >= COMMON_SIZE + (if b[0] == 1 then MAP_V1_SIZE else MAP_V2_SIZE)
    ensures |f.nonce| == 12
  {
    if b[0] == 1 then
      MapFields(seq(12, i => 0), b[24], Read16(b, 28), Read16(b, 30), b[32..48])
    else
      MapFields(b[24..36], b[36], Read16(b, 40), Read16(b, 42), b[44..60])
  }

  predicate IsUnspecified(ip: Ip) {
    ip == UNSPECIFIED || (IsV4Mapped(ip) && ip[12..] == [0, 0, 0, 0])
  }

  /** CheckExternalAddress */
  predicate ExternalOk(f: MapFields, s: OptionState, cfg: Config, mapped: Ip) {
    if !IsV4Mapped(mapped) then IsUnspecified(f.extIp) || f.extIp == mapped || !s.preferFailure
    else cfg.external.Some? && (IsUnspecified(f.extIp) || f.extIp == cfg.external.value || !s.preferFailure)
  }

  /** ValidatePCPMsg, once the options are in order. */
  predicate Validated(f: MapFields, s: OptionState, intIp: Ip, sender: Ip, cfg: Config) {
    && intIp == sender
    && (s.thirdParty.Some? ==> cfg.allowThirdParty && s.thirdParty.value != sender)
    && (f.protocol == 0 ==> f.intPort == 0)
    && (s.preferFailure ==> f.extPort != 0)
    && ExternalOk(f, s, cfg, if s.thirdParty.Some? then s.thirdParty.value else intIp)
  }

  /** The result code of a request that is not validated, 0 for one that is. */
  function Complaint(f: MapFields, s: OptionState, intIp: Ip, sender: Ip, cfg: Config): (code: nat)
    ensures code == 0 <==> Validated(f, s, intIp, sender, cfg)
  {
    var mapped := if s.thirdParty.Some? then s.thirdParty.value else intIp;
    if intIp != sender then ADDRESS_MISMATCH
    else if s.thirdParty.Some? && !cfg.allowThirdParty then UNSUPP_OPTION
    else if s.thirdParty == Some(sender) then MALFORMED_REQUEST
    else if f.protocol == 0 && f.intPort != 0 then MALFORMED_REQUEST
    else if s.preferFailure && f.extPort == 0 then MALFORMED_OPTION
    else if IsV4Mapped(mapped) && cfg.external.None? then NETWORK_FAILURE
    else if !ExternalOk(f, s, cfg, mapped) then CANNOT_PROVIDE_EXTERNAL
    else 0
  }

  function ToRequest(f: MapFields, s: OptionState, intIp: Ip, lifetime: nat): Request
    requires |f.nonce| == 12
  {
    var mapped := if s.thirdParty.Some? then s.thirdParty.value else intIp;
    PcpMap(PrintV4(mapped), Some(V4Number(mapped)), f.protocol, f.intPort, f.extPort, lifetime,
           MapDesc(f.nonce), s.preferFailure)
  }

  /** What is to happen with a packet. */
  function Decide(b: seq<Byte>, sender: Ip, cfg: Config): Outcome {
    if |b| < 3 then Ignored
    else if |b| < MIN_LEN || |b| > MAX_LEN || |b| % 4 != 0 then Rejected(MALFORMED_REQUEST)
    else if b[0] == 0 || b[0] > 2 then Rejected(UNSUPP_VERSION)
    else
      var opcode, lifetime, intIp := b[1] % 128, Clamp(Read32(b, 4), cfg), b[8..24];
      var header := COMMON_SIZE + if b[0] == 1 then MAP_V1_SIZE else MAP_V2_SIZE;
      if opcode == OPCODE_ANNOUNCE && b[0] == 2 then
        if intIp != sender then Rejected(ADDRESS_MISMATCH)
        else if Options(b, COMMON_SIZE, opcode, 0, NO_OPTIONS).Some? then Announced
        else Rejected(OptionsCode(b, COMMON_SIZE, opcode, 0, NO_OPTIONS, 0))
      else if opcode != OPCODE_MAP then Rejected(UNSUPP_OPCODE)
      else if |b| < header then Rejected(MALFORMED_REQUEST)
      else match Options(b, header, opcode, lifetime, NO_OPTIONS)
        case None => Rejected(OptionsCode(b, header, opcode, lifetime, NO_OPTIONS, 0))
        case Some(s) =>
          var f := Fields(b);
          if !Validated(f, s, intIp, sender, cfg) then Rejected(Complaint(f, s, intIp, sender, cfg))
          else if !IsV4Mapped(if s.thirdParty.Some? then s.thirdParty.value else intIp) then Firewall
          else Map(ToRequest(f, s, intIp, lifetime))
  }

  // ---------- the server ----------

  /** pcp_info_t */
  class PcpInfo {
    var resultCode: nat
    var opcode: nat
    var lifetime: nat
    var fields: MapFields
    var intIp: Ip
    var thirdpIp: Option<Ip>
    var pfailurePresent: bool
    var extPort: Port

    constructor ()
      ensures resultCode == 0 && State() == NO_OPTIONS
    {
      resultCode, opcode, lifetime, extPort := 0, 0, 0, 0;
      fields := MapFields(seq(12, i => 0), 0, 0, 0, UNSPECIFIED);
      intIp, thirdpIp, pfailurePresent := UNSPECIFIED, None, false;
    }

    function State(): OptionState
      reads this
    {
      OptionState(thirdpIp, pfailurePresent)
    }

    /** parsePCPOption: the space that the option takes, or 0 when parsing cannot go on.  An error is
        recorded and never cleared; no byte behind the packet is read. */
    method ParseOption(b: seq<Byte>, pos: nat) returns (length: nat)
      requires pos < |b| && (|b| - pos) % 4 == 0
      modifies this`resultCode, this`thirdpIp, this`pfailurePresent
      ensures pos + length <= |b| && (|b| - pos - length) % 4 == 0
      ensures old(resultCode) != 0 ==> resultCode != 0
      ensures length == 0 ==> resultCode != 0
      ensures old(resultCode) == 0 && resultCode == 0 ==>
        && Frame(b, pos).Some? && pos + length == Frame(b, pos).value.1
        && Apply(Frame(b, pos).value.0, opcode, lifetime, old(State())) == Some(State())
      ensures old(resultCode) == 0 && resultCode != 0 ==>
        Frame(b, pos).None? || Apply(Frame(b, pos).value.0, opcode, lifetime, old(State())).None?
      ensures match Frame(b, pos)
              case None => resultCode == MALFORMED_OPTION && length == 0
              case Some((o, next)) =>
                var j := Judge(o, opcode, lifetime, old(State()));
                && resultCode == (if j.code != 0 then j.code else old(resultCode))
                && (if j.last then length == 0 else pos + length == next && State() == Noted(o, old(State())))
    {
      hide Read16, V4_PREFIX;
      var remain := |b| - pos;
      if remain < 4 {
        resultCode := MALFORMED_OPTION;
        return 0;
      }
      remain := remain - 4;
      var optionLength: nat := Read16(b, pos + 2);
      if remain < optionLength {
        resultCode := MALFORMED_OPTION;
        return 0;
      }
      ghost var data := b[pos + 4..pos + 4 + optionLength];
      if b[pos] == THIRD_PARTY {
        if optionLength != 16 {
          resultCode := MALFORMED_OPTION;
          return 0;
        }
        if thirdpIp.Some? {
          resultCode := MALFORMED_OPTION;
          return 0;
        }
        thirdpIp := Some(b[pos + 4..pos + 20]);
      } else if b[pos] == PREFER_FAILURE {
        if opcode == OPCODE_PEER {
          resultCode := MALFORMED_REQUEST;
          return 0;
        }
        if optionLength != 0 || lifetime == 0 {
          resultCode := MALFORMED_OPTION;
          return 0;
        }
        if opcode != OPCODE_MAP {
          resultCode := MALFORMED_REQUEST;
        }
        if pfailurePresent {
          resultCode := MALFORMED_OPTION;
        } else {
          pfailurePresent := true;
        }
      } else if b[pos] == FILTER {
        if optionLength != 20 || lifetime == 0 {
          resultCode := MALFORMED_OPTION;
          return 0;
        }
        assert data[1] == b[pos + 5];
        SliceOfSlice(b, pos + 4, 20);
        if b[pos + 5] > 128 || (b[pos + 8..pos + 20] == V4_PREFIX && b[pos + 5] < 96) {
          resultCode := MALFORMED_OPTION;
          return 0;
        }
        if opcode != OPCODE_MAP {
          resultCode := MALFORMED_REQUEST;
          return 0;
        }
      } else if b[pos] < 128 {
        resultCode := UNSUPP_OPTION;
      }
      return 4 + (optionLength + 3) / 4 * 4;
    }

    /** parsePCPOptions: ends, stays inside the packet, and finds an error exactly when there is one. */
    method ParseOptions(b: seq<Byte>, start: nat)
      requires start <= |b| && (|b| - start) % 4 == 0
      modifies this`resultCode, this`thirdpIp, this`pfailurePresent
      ensures old(resultCode) != 0 ==> resultCode != 0
      ensures old(resultCode) == 0 ==>
        var r := Options(b, start, opcode, lifetime, old(State()));
        if resultCode == 0 then r == Some(State()) else r.None?
      ensures resultCode == OptionsCode(b, start, opcode, lifetime, old(State()), old(resultCode))
    {
      hide Frame, Apply, Judge, Noted;
      var pos := start;
      ghost var goal := Options(b, start, opcode, lifetime, State());
      while pos < |b|
        invariant pos <= |b| && (|b| - pos) % 4 == 0
        invariant old(resultCode) != 0 ==> resultCode != 0
        invariant resultCode == 0 ==> goal == Options(b, pos, opcode, lifetime, State())
        invariant resultCode != 0 && old(resultCode) == 0 ==> goal == None
        invariant OptionsCode(b, start, opcode, lifetime, old(State()), old(resultCode))
               == OptionsCode(b, pos, opcode, lifetime, State(), resultCode)
        decreases |b| - pos
      {
        var length := ParseOption(b, pos);
        if length == 0 {
          return;
        }
        pos := pos + length;
      }
    }

    /** ValidatePCPMsg with CheckExternalAddress: false leaves a result code that is not success. */
    method Validate(sender: Ip, cfg: Config) returns (ok: bool, mapped: Ip)
      modifies this`resultCode
      ensures !ok ==> resultCode != 0
      ensures ok ==> old(resultCode) == 0 && resultCode == 0
      ensures ok <==> old(resultCode) == 0 && Validated(fields, State(), intIp, sender, cfg)
      ensures mapped == if thirdpIp.Some? then thirdpIp.value else intIp
      ensures old(resultCode) != 0 ==> resultCode == old(resultCode)
      ensures old(resultCode) == 0 ==> resultCode == Complaint(fields, State(), intIp, sender, cfg)
    {
      hide IsV4Mapped, IsUnspecified;
      mapped := if thirdpIp.Some? then thirdpIp.value else intIp;
      if resultCode != 0 {
        return false, mapped;
      }
      if intIp != sender {
        resultCode := ADDRESS_MISMATCH;
        return false, mapped;
      }
      if thirdpIp.Some? {
        if !cfg.allowThirdParty {
          resultCode := UNSUPP_OPTION;
          return false, mapped;
        }
        if thirdpIp.value == sender {
          resultCode := MALFORMED_REQUEST;
          return false, mapped;
        }
      }
      if fields.protocol == 0 && fields.intPort != 0 {
        resultCode := MALFORMED_REQUEST;
        return false, mapped;
      }
      if pfailurePresent && fields.extPort == 0 {
        resultCode := MALFORMED_OPTION;
        return false, mapped;
      }
      var external := mapped;
      if IsV4Mapped(mapped) {
        if cfg.external.None? {
          resultCode := NETWORK_FAILURE;
          return false, mapped;
        }
        external := cfg.external.value;
      }
      if !IsUnspecified(fields.extIp) && fields.extIp != external && pfailurePresent {
        resultCode := CANNOT_PROVIDE_EXTERNAL;
        return false, mapped;
      }
      return true, mapped;
    }

    /** The MAP branch of processPCPRequest behind the opcode-specific fields. */
    method ProcessMap(g: Gateway, b: seq<Byte>, header: nat, sender: Ip, cfg: Config, perms: seq<Perm>, env: Env,
                      firewallCode: nat)
      requires g as object != this && Unique(g.table) && resultCode == 0 && State() == NO_OPTIONS
      requires header <= |b| && (|b| - header) % 4 == 0 && opcode == OPCODE_MAP && |fields.nonce| == 12
      requires extPort == fields.extPort
      modifies this, g
      ensures var s := Options(b, header, OPCODE_MAP, old(lifetime), NO_OPTIONS);
              var m := if s.Some? && s.value.thirdParty.Some? then s.value.thirdParty.value else old(intIp);
              if s.None? then
                && g.table == old(g.table)
                && resultCode == OptionsCode(b, header, OPCODE_MAP, old(lifetime), NO_OPTIONS, 0) != 0
              else if !Validated(old(fields), s.value, old(intIp), sender, cfg) then
                && g.table == old(g.table)
                && resultCode == Complaint(old(fields), s.value, old(intIp), sender, cfg) != 0
              else if !IsV4Mapped(m) then g.table == old(g.table)
              else Result(g.table, resultCode, extPort)
                   == Served(old(g.table), ToRequest(old(fields), s.value, old(intIp), old(lifetime)), perms, env)
    {
      hide Options, OptionsCode, Validated, Complaint, Served, PrintV4, V4Number, MapDesc, IsV4Mapped, Unique;
      ParseOptions(b, header);
      var ok, mapped := Validate(sender, cfg);
      if ok {
        if !IsV4Mapped(mapped) {
          resultCode := firewallCode;
          return;
        }
        var r := PcpMap(PrintV4(mapped), Some(V4Number(mapped)), fields.protocol, fields.intPort, fields.extPort,
                        lifetime, MapDesc(fields.nonce), pfailurePresent);
        if lifetime == 0 {
          resultCode := g.DeletePcpMap(r, env);
          DeletionServed(old(g.table), r, perms, env);
        } else {
          resultCode, extPort := g.CreatePcpMapNat(r, perms, env);
        }
      }
    }

    /** processPCPRequest: false when there is to be no response. */
    method ProcessRequest(g: Gateway, b: seq<Byte>, sender: Ip, cfg: Config, perms: seq<Perm>, env: Env,
                          firewallCode: nat) returns (respond: bool)
      requires g as object != this && Unique(g.table) && State() == NO_OPTIONS
      modifies this, g
      ensures var d := Decide(b, sender, cfg);
              && (respond <==> !d.Ignored?)
              && (!d.Map? ==> g.table == old(g.table))
              && (d.Rejected? ==> resultCode == d.code != 0)
              && (d.Announced? ==> resultCode == 0)
              && (d.Map? ==> Result(g.table, resultCode, extPort) == Served(old(g.table), d.request, perms, env))
    {
      hide Options, OptionsCode, Validated, Complaint, Served, PrintV4, V4Number, MapDesc, IsV4Mapped, Unique, Clamp;
      hide Read32, Fields, ToRequest;
      resultCode := 0;
      if |b| < 3 {
        return false;
      }
      if |b| < MIN_LEN || |b| > MAX_LEN || |b| % 4 != 0 {
        resultCode := MALFORMED_REQUEST;
        return true;
      }
      var version := b[0];
      opcode := b[1] % 128;
      lifetime := Read32(b, 4);
      intIp := b[8..24];
      if version > 2 {
        resultCode := UNSUPP_VERSION;
        return true;
      }
      lifetime := Clamp(lifetime, cfg);
      if version == 0 {
        resultCode := UNSUPP_VERSION;
        return true;
      }
      if version == 2 && opcode == OPCODE_ANNOUNCE {
        lifetime := 0;
        if intIp != sender {
          resultCode := ADDRESS_MISMATCH;
          return true;
        }
        ParseOptions(b, COMMON_SIZE);
        return true;
      }
      if opcode != OPCODE_MAP {
        resultCode := UNSUPP_OPCODE;
        return true;
      }
      var header := COMMON_SIZE + if version == 1 then MAP_V1_SIZE else MAP_V2_SIZE;
      if |b| < header {
        resultCode := MALFORMED_REQUEST;
        return true;
      }
      fields := Fields(b);
      extPort := fields.extPort;
      ProcessMap(g, b, header, sender, cfg, perms, env, firewallCode);
      return true;
    }
  }

  lemma SliceOfSlice(b: seq<Byte>, p: nat, n: nat)
    requires p + n <= |b| && n >= 16
    ensures b[p..p + n][4..16] == b[p + 4..p + 16]
  {
    var x, y := b[p..p + n][4..16], b[p + 4..p + 16];
    forall k | 0 <= k < 12
      ensures x[k] == y[k]
    {
      assert x[k] == b[p..p + n][k + 4] == b[p + k + 4] == y[k];
    }
  }

  lemma DeletionServed(t: seq<Rule>, r: Request, perms: seq<Perm>, env: Env)
    requires r.PcpMap? && r.lifetime == 0
    ensures Served(t, r, perms, env) == Result(PcpDeleted(t, r, env).0, PcpDeleted(t, r, env).1, r.eport)
  {
  }

  // ---------- what acceptance of the options means ----------

  /** The options as a list; None when the last one is cut off. */
  function OptionList(b: seq<Byte>, pos: nat): Option<seq<PcpOption>>
    requires pos <= |b| && (|b| - pos) % 4 == 0
    decreases |b| - pos
  {
    if pos == |b| then Some([])
    else match Frame(b, pos)
      case None => None
      case Some((o, next)) =>
        match OptionList(b, next)
        case None => None
        case Some(os) => Some([o] + os)
  }

  predicate HasOption(os: seq<PcpOption>, code: Byte) {
    exists k :: 0 <= k < |os| && os[k].code == code
  }

  /** A list without errors in which THIRD_PARTY and PREFER_FAILURE appear at most once. */
  ghost predicate ListOk(os: seq<PcpOption>, opcode: nat, lifetime: nat) {
    && (forall k :: 0 <= k < |os| ==> OptionOk(os[k], opcode, lifetime))
    && (forall i, j :: 0 <= i < j < |os| && os[i].code == os[j].code ==>
          os[i].code != THIRD_PARTY && os[i].code != PREFER_FAILURE)
  }

  ghost predicate Fresh(os: seq<PcpOption>, s: OptionState) {
    && (s.thirdParty.Some? ==> !HasOption(os, THIRD_PARTY))
    && (s.preferFailure ==> !HasOption(os, PREFER_FAILURE))
  }

  lemma ListOkCons(o: PcpOption, os: seq<PcpOption>, opcode: nat, lifetime: nat, s: OptionState)
    ensures ListOk([o] + os, opcode, lifetime) && Fresh([o] + os, s)
       <==> Apply(o, opcode, lifetime, s).Some? && ListOk(os, opcode, lifetime)
            && Fresh(os, Apply(o, opcode, lifetime, s).value)
  {
    hide OptionOk;
    var all := [o] + os;
    assert all[0] == o && forall k :: 0 <= k < |os| ==> all[k + 1] == os[k];
    assert forall k :: 1 <= k < |all| ==> all[k] == os[k - 1];
    assert forall c: Byte :: HasOption(all, c) <==> o.code == c || HasOption(os, c) by {
      forall c: Byte
        ensures HasOption(all, c) <==> o.code == c || HasOption(os, c)
      {
        if HasOption(os, c) {
          var k :| 0 <= k < |os| && os[k].code == c;
          assert all[k + 1].code == c;
        }
        if o.code == c {
          assert all[0].code == c;
        }
      }
    }
    if ListOk(os, opcode, lifetime) && OptionOk(o, opcode, lifetime) {
      assert ListOk(all, opcode, lifetime)
        <==> !(o.code == THIRD_PARTY && HasOption(os, THIRD_PARTY)) &&
             !(o.code == PREFER_FAILURE && HasOption(os, PREFER_FAILURE)) by {
        if o.code == THIRD_PARTY && HasOption(os, THIRD_PARTY) {
          var k :| 0 <= k < |os| && os[k].code == THIRD_PARTY;
          assert all[0].code == all[k + 1].code;
        }
        if o.code == PREFER_FAILURE && HasOption(os, PREFER_FAILURE) {
          var k :| 0 <= k < |os| && os[k].code == PREFER_FAILURE;
          assert all[0].code == all[k + 1].code;
        }
      }
    }
    if ListOk(all, opcode, lifetime) {
      assert OptionOk(all[0], opcode, lifetime);
      assert ListOk(os, opcode, lifetime) by {
        forall i, j | 0 <= i < j < |os| && os[i].code == os[j].code
          ensures os[i].code != THIRD_PARTY && os[i].code != PREFER_FAILURE
        {
          assert all[i + 1].code == all[j + 1].code;
        }
        forall k | 0 <= k < |os|
          ensures OptionOk(os[k], opcode, lifetime)
        {
          assert OptionOk(all[k + 1], opcode, lifetime);
        }
      }
    }
  }

  lemma {:induction false} OptionsMeaning(b: seq<Byte>, pos: nat, opcode: nat, lifetime: nat, s: OptionState)
    requires pos <= |b| && (|b| - pos) % 4 == 0
    ensures Options(b, pos, opcode, lifetime, s).Some?
       <==> OptionList(b, pos).Some? && ListOk(OptionList(b, pos).value, opcode, lifetime)
            && Fresh(OptionList(b, pos).value, s)
    decreases |b| - pos
  {
    hide ListOk, Fresh, Apply;
    if pos == |b| {
      EmptyListOk(opcode, lifetime, s);
    } else {
      match Frame(b, pos)
      case None =>
      case Some((o, next)) =>
        var a := Apply(o, opcode, lifetime, s);
        if OptionList(b, next).Some? {
          ListOkCons(o, OptionList(b, next).value, opcode, lifetime, s);
        }
        if a.Some? {
          OptionsMeaning(b, next, opcode, lifetime, a.value);
        }
    }
  }

  lemma EmptyListOk(opcode: nat, lifetime: nat, s: OptionState)
    ensures ListOk([], opcode, lifetime) && Fresh([], s)
  {
  }

  /** The options of a request are accepted exactly when all are well framed, each makes sense in the
      request, and THIRD_PARTY and PREFER_FAILURE are not repeated. */
  lemma OptionsAccepted(b: seq<Byte>, pos: nat, opcode: nat, lifetime: nat)
    requires pos <= |b| && (|b| - pos) % 4 == 0
    ensures Options(b, pos, opcode, lifetime, NO_OPTIONS).Some?
       <==> OptionList(b, pos).Some? && ListOk(OptionList(b, pos).value, opcode, lifetime)
  {
    OptionsMeaning(b, pos, opcode, lifetime, NO_OPTIONS);
  }

  /** So a MAP request with an error in its options never reaches the table: it is rejected. */
  lemma OptionErrorRejects(b: seq<Byte>, sender: Ip, cfg: Config)
    requires MIN_LEN <= |b| <= MAX_LEN && |b| % 4 == 0 && b[1] % 128 == OPCODE_MAP
    requires b[0] == 1 || b[0] == 2
    requires var header := COMMON_SIZE + if b[0] == 1 then MAP_V1_SIZE else MAP_V2_SIZE;
             header <= |b| && !(OptionList(b, header).Some?
               && ListOk(OptionList(b, header).value, OPCODE_MAP, Clamp(Read32(b, 4), cfg)))
    ensures Decide(b, sender, cfg).Rejected? && Decide(b, sender, cfg).code != 0
  {
    hide Options, OptionsCode, OptionList, ListOk, Validated, Clamp, Read32, Fields, ToRequest;
    var header := COMMON_SIZE + if b[0] == 1 then MAP_V1_SIZE else MAP_V2_SIZE;
    OptionsAccepted(b, header, OPCODE_MAP, Clamp(Read32(b, 4), cfg));
    CodeIsError(b, header, OPCODE_MAP, Clamp(Read32(b, 4), cfg), NO_OPTIONS, 0);
  }
}
