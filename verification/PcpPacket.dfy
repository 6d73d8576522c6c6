/** MAP request packets as section 11.1 of RFC 6887 lays them out, and what the server makes of them. */
module PcpPacket {
  import opened Wrappers
  import opened CodeLength
  import opened SeqTools
  import opened Permissions
  import opened PortMapping
  import opened PcpRequest

  /** A MAP request; version 1 packets have no nonce. */
  datatype MapPacket = MapPacket(version: Byte, lifetime: nat, client: Ip, nonce: seq<Byte>, protocol: Byte,
    intPort: Port, extPort: Port, extIp: Ip, options: seq<PcpOption>)

  predicate WellFormed(m: MapPacket) {
    && (m.version == 1 || m.version == 2) && m.lifetime < WORD && |m.nonce| == 12
    && forall k :: 0 <= k < |m.options| ==> |m.options[k].data| < 65536
  }

  function Bytes16(n: Port): (r: seq<Byte>)
    ensures |r| == 2
  {
    [n / 256, n % 256]
  }

  function Bytes32(n: nat): (r: seq<Byte>)
    requires n < WORD
    ensures |r| == 4
  {
    Bytes16(n / 65536) + Bytes16(n % 65536)
  }

  function Zeros(n: nat): (r: seq<Byte>)
    ensures |r| == n
  {
    if n == 0 then [] else [0] + Zeros(n - 1)
  }

  /** Code, a reserved byte, the length, and the data padded to a multiple of four. */
  function EncodeOption(o: PcpOption): (r: seq<Byte>)
    requires |o.data| < 65536
    ensures |r| == 4 + (|o.data| + 3) / 4 * 4 && |r| % 4 == 0
  {
    ([o.code, 0] + Bytes16(|o.data|)) + (o.data + Zeros((|o.data| + 3) / 4 * 4 - |o.data|))
  }

  lemma FoursAdd(m: nat, n: nat)
    requires m % 4 == 0 && n % 4 == 0
    ensures (m + n) % 4 == 0
  {
  }

  function EncodeOptions(os: seq<PcpOption>): (r: seq<Byte>)
    requires forall k :: 0 <= k < |os| ==> |os[k].data| < 65536
    ensures |r| % 4 == 0
  {
    if os == [] then []
    else
      var first, rest := EncodeOption(os[0]), EncodeOptions(os[1..]);
      FoursAdd(|first|, |rest|);
      first + rest
  }

  /** The common header: version, opcode, a reserved word, lifetime and client address. */
  function EncodeHeader(m: MapPacket): (r: seq<Byte>)
    requires WellFormed(m)
    ensures |r| == 24
  {
    [m.version, 1] + ([0, 0] + (Bytes32(m.lifetime) + m.client))
  }

  /** Protocol, reserved bytes, the two ports and the suggested external address. */
  function EncodePorts(m: MapPacket): (r: seq<Byte>)
    ensures |r| == 24
  {
    [m.protocol, 0, 0, 0] + (Bytes16(m.intPort) + (Bytes16(m.extPort) + m.extIp))
  }

  function EncodeBody(m: MapPacket): (r: seq<Byte>)
    requires WellFormed(m)
    ensures |r| == if m.version == 1 then 24 else 36
  {
    if m.version == 1 then EncodePorts(m) else m.nonce + EncodePorts(m)
  }

  function Encode(m: MapPacket): (r: seq<Byte>)
    requires WellFormed(m)
    ensures |r| % 4 == 0
  {
    EncodeHeader(m) + (EncodeBody(m) + EncodeOptions(m.options))
  }

  // ---------- numbers ----------

  lemma Read16Back(b: seq<Byte>, p: nat, n: Port)
    requires At(b, p, Bytes16(n))
    ensures p + 2 <= |b| && Read16(b, p) == n
  {
    var s := Bytes16(n);
    assert b[p..p + 2][0] == s[0] && b[p..p + 2][1] == s[1];
  }

  lemma Read32Back(b: seq<Byte>, p: nat, n: nat)
    requires n < WORD && At(b, p, Bytes32(n))
    ensures p + 4 <= |b| && Read32(b, p) == n
  {
    hide At, Read16;
    AtSplit(b, p, Bytes16(n / 65536), Bytes16(n % 65536));
    Read16Back(b, p, n / 65536);
    Read16Back(b, p + 2, n % 65536);
  }

  lemma ByteAt(b: seq<Byte>, p: nat, s: seq<Byte>, k: nat)
    requires At(b, p, s) && k < |s|
    ensures p + k < |b| && b[p + k] == s[k]
  {
    assert b[p..p + |s|][k] == b[p + k];
  }

  // ---------- options ----------

  lemma OptionReadBack(b: seq<Byte>, p: nat, o: PcpOption)
    requires |o.data| < 65536 && At(b, p, EncodeOption(o)) && (|b| - p) % 4 == 0
    ensures Frame(b, p) == Some((o, p + |EncodeOption(o)|))
  {
    hide At, Read16, Bytes16;
    var pad := Zeros((|o.data| + 3) / 4 * 4 - |o.data|);
    AtIs(b, p, EncodeOption(o));
    AtSplit(b, p, [o.code, 0] + Bytes16(|o.data|), o.data + pad);
    AtSplit(b, p, [o.code, 0], Bytes16(|o.data|));
    AtSplit(b, p + 4, o.data, pad);
    ByteAt(b, p, [o.code, 0], 0);
    Read16Back(b, p + 2, |o.data|);
    AtIs(b, p + 4, o.data);
  }

  lemma {:induction false} OptionsReadBack(b: seq<Byte>, p: nat, os: seq<PcpOption>)
    requires forall k :: 0 <= k < |os| ==> |os[k].data| < 65536
    requires At(b, p, EncodeOptions(os)) && p + |EncodeOptions(os)| == |b|
    ensures (|b| - p) % 4 == 0 && OptionList(b, p) == Some(os)
    decreases |os|
  {
    hide At, Frame, EncodeOption;
    if os != [] {
      var q := p + |EncodeOption(os[0])|;
      AtSplit(b, p, EncodeOption(os[0]), EncodeOptions(os[1..]));
      OptionReadBack(b, p, os[0]);
      OptionsReadBack(b, q, os[1..]);
      assert [os[0]] + os[1..] == os;
    }
  }

  /** The address of the THIRD_PARTY option, if there is one. */
  function ThirdParty(os: seq<PcpOption>): Option<seq<Byte>> {
    if os == [] then None else if os[0].code == THIRD_PARTY then Some(os[0].data) else ThirdParty(os[1..])
  }

  /** What options set when there is no error among them. */
  lemma {:induction false} StateRead(b: seq<Byte>, p: nat, opcode: nat, lifetime: nat, s: OptionState)
    requires p <= |b| && (|b| - p) % 4 == 0 && Options(b, p, opcode, lifetime, s).Some?
    ensures OptionList(b, p).Some?
    ensures var os, s' := OptionList(b, p).value, Options(b, p, opcode, lifetime, s).value;
            && s'.thirdParty == (if s.thirdParty.Some? then s.thirdParty else ThirdParty(os))
            && (s'.preferFailure <==> s.preferFailure || HasOption(os, PREFER_FAILURE))
    decreases |b| - p
  {
    hide OptionOk;
    if p < |b| {
      var f := Frame(b, p).value;
      var next := Apply(f.0, opcode, lifetime, s).value;
      StateRead(b, f.1, opcode, lifetime, next);
      var rest := OptionList(b, f.1).value;
      HasCons(f.0, rest, PREFER_FAILURE);
      assert ([f.0] + rest)[1..] == rest;
      if next.thirdParty.Some? && s.thirdParty.None? {
        assert f.0.code == THIRD_PARTY;
      }
    }
  }

  lemma HasCons(o: PcpOption, os: seq<PcpOption>, code: Byte)
    ensures HasOption([o] + os, code) <==> o.code == code || HasOption(os, code)
  {
    var all := [o] + os;
    assert all[0] == o;
    if HasOption(os, code) {
      var k :| 0 <= k < |os| && os[k].code == code;
      assert all[k + 1] == os[k];
    }
    if HasOption(all, code) && o.code != code {
      var k :| 0 <= k < |all| && all[k].code == code;
      assert os[k - 1] == all[k];
    }
  }

  // ---------- errors among the options ----------

  /** What is wrong with the k-th option of a request with this lifetime; 0 when nothing is.  Lifetime 0
      also stands for requests that do not ask for a mapping. */
  function Fault(os: seq<PcpOption>, k: nat, lifetime: nat): nat
    requires k < |os|
  {
    var (code, data) := (os[k].code, os[k].data);
    if code == 1 then (if |data| == 16 && !HasOption(os[..k], 1) then 0 else 6)
    else if code == 2 then (if |data| == 0 && lifetime > 0 && !HasOption(os[..k], 2) then 0 else 6)
    else if code == 3 then (if |data| == 20 && lifetime > 0 && PrefixOk(data[1], data[4..16]) then 0 else 6)
    else if code < 128 then 5 else 0
  }

  /** The prefix of a FILTER option covers the marker of an IPv4 address. */
  predicate PrefixOk(length: Byte, marker: seq<Byte>) {
    length <= 128 && (marker == [0, 0, 0, 0, 0, 0, 0, 0, 0, 0, 0xff, 0xff] ==> length >= 96)
  }

  /** Every malformed option ends the parsing, except a PREFER_FAILURE whose only fault is to be repeated. */
  predicate Ends(os: seq<PcpOption>, k: nat, lifetime: nat)
    requires k < |os|
  {
    Fault(os, k, lifetime) == 6 && !(os[k].code == 2 && |os[k].data| == 0 && lifetime > 0)
  }

  /** How many options are looked at, from the k-th on. */
  function LookedAt(os: seq<PcpOption>, k: nat, lifetime: nat): (n: nat)
    requires k <= |os|
    ensures k <= n <= |os|
    decreases |os| - k
  {
    if k == |os| then k else if Ends(os, k, lifetime) then k + 1 else LookedAt(os, k + 1, lifetime)
  }

  /** The last fault among the first n options. */
  function LastFault(os: seq<PcpOption>, n: nat, lifetime: nat): nat
    requires n <= |os|
  {
    if n == 0 then 0
    else if Fault(os, n - 1, lifetime) != 0 then Fault(os, n - 1, lifetime)
    else LastFault(os, n - 1, lifetime)
  }

  /** What the options before the k-th have set. */
  ghost predicate Seen(os: seq<PcpOption>, k: nat, s: OptionState)
    requires k <= |os|
  {
    (s.thirdParty.Some? <==> HasOption(os[..k], 1)) && (s.preferFailure <==> HasOption(os[..k], 2))
  }

  lemma HasSnoc(os: seq<PcpOption>, k: nat, code: Byte)
    requires k < |os|
    ensures HasOption(os[..k + 1], code) <==> HasOption(os[..k], code) || os[k].code == code
  {
    var (x, y) := (os[..k + 1], os[..k]);
    assert x[k] == os[k];
    if HasOption(y, code) {
      var i :| 0 <= i < |y| && y[i].code == code;
      assert x[i] == y[i];
    }
    if HasOption(x, code) && os[k].code != code {
      var i :| 0 <= i < |x| && x[i].code == code;
      assert y[i] == x[i];
    }
  }

  lemma FaultJudged(os: seq<PcpOption>, k: nat, opcode: nat, lifetime: nat, s: OptionState)
    requires k < |os| && Seen(os, k, s) && (opcode == 1 || (opcode == 0 && lifetime == 0))
    ensures Judge(os[k], opcode, lifetime, s) == Judgement(Fault(os, k, lifetime), Ends(os, k, lifetime))
    ensures Ends(os, k, lifetime) || Seen(os, k + 1, Noted(os[k], s))
  {
    hide HasOption;
    HasSnoc(os, k, 1);
    HasSnoc(os, k, 2);
  }

  /** A request with errors among its options is answered with the last one up to the first that ends the
      parsing. */
  lemma {:induction false} OptionFault(b: seq<Byte>, p: nat, os: seq<PcpOption>, k: nat, opcode: nat, lifetime: nat,
                                       s: OptionState)
    requires p <= |b| && (|b| - p) % 4 == 0 && k <= |os| && OptionList(b, p) == Some(os[k..])
    requires Seen(os, k, s) && (opcode == 1 || (opcode == 0 && lifetime == 0))
    ensures OptionsCode(b, p, opcode, lifetime, s, LastFault(os, k, lifetime))
         == LastFault(os, LookedAt(os, k, lifetime), lifetime)
    decreases |os| - k
  {
    hide Frame, Judge, Noted, Fault, Ends, Seen;
    if p < |b| {
      var (o, next) := Frame(b, p).value;
      var rest := OptionList(b, next).value;
      assert [o] + rest == os[k..];
      assert o == ([o] + rest)[0] == os[k..][0] == os[k];
      assert rest == ([o] + rest)[1..] == os[k..][1..] == os[k + 1..];
      FaultJudged(os, k, opcode, lifetime, s);
      if !Ends(os, k, lifetime) {
        OptionFault(b, next, os, k + 1, opcode, lifetime, Noted(o, s));
      }
    } else {
      assert |os[k..]| == 0;
    }
  }

  // ---------- the whole packet ----------

  function FieldsOf(m: MapPacket): MapFields {
    MapFields(if m.version == 1 then Zeros(12) else m.nonce, m.protocol, m.intPort, m.extPort, m.extIp)
  }

  /** Every field is where the server looks for it. */
  lemma FieldsReadBack(m: MapPacket)
    requires WellFormed(m)
    ensures var b := Encode(m);
            var header := COMMON_SIZE + if m.version == 1 then MAP_V1_SIZE else MAP_V2_SIZE;
            && |b| >= header && b[0] == m.version && b[1] == 1
            && Read32(b, 4) == m.lifetime && b[8..24] == m.client
            && Fields(b) == FieldsOf(m)
            && OptionList(b, header) == Some(m.options)
  {
    hide At, Read16, Read32, Bytes16, Bytes32, OptionList, EncodeOptions, Fields;
    var b, header := Encode(m), EncodeHeader(m);
    var rest := EncodeBody(m) + EncodeOptions(m.options);
    AtIs(b, 0, b);
    assert b[0..|b|] == b;
    AtSplit(b, 0, header, rest);
    AtSplit(b, 24, EncodeBody(m), EncodeOptions(m.options));
    HeaderReadBack(b, m);
    BodyReadBack(b, m);
    OptionsReadBack(b, 24 + |EncodeBody(m)|, m.options);
  }

  lemma HeaderReadBack(b: seq<Byte>, m: MapPacket)
    requires WellFormed(m) && At(b, 0, EncodeHeader(m))
    ensures |b| >= 24 && b[0] == m.version && b[1] == 1 && Read32(b, 4) == m.lifetime && b[8..24] == m.client
  {
    hide At, Read32, Bytes32;
    AtSplit(b, 0, [m.version, 1], [0, 0] + (Bytes32(m.lifetime) + m.client));
    ByteAt(b, 0, [m.version, 1], 0);
    ByteAt(b, 0, [m.version, 1], 1);
    AtSplit(b, 2, [0, 0], Bytes32(m.lifetime) + m.client);
    AtSplit(b, 4, Bytes32(m.lifetime), m.client);
    Read32Back(b, 4, m.lifetime);
    AtIs(b, 8, m.client);
  }

  lemma PortsReadBack(b: seq<Byte>, p: nat, m: MapPacket)
    requires At(b, p, EncodePorts(m))
    ensures p + 24 <= |b| && b[p] == m.protocol && b[p + 8..p + 24] == m.extIp
    ensures Read16(b, p + 4) == m.intPort && Read16(b, p + 6) == m.extPort
  {
    hide At, Read16, Bytes16;
    AtIs(b, p, EncodePorts(m));
    AtSplit(b, p, [m.protocol, 0, 0, 0], Bytes16(m.intPort) + (Bytes16(m.extPort) + m.extIp));
    ByteAt(b, p, [m.protocol, 0, 0, 0], 0);
    AtSplit(b, p + 4, Bytes16(m.intPort), Bytes16(m.extPort) + m.extIp);
    AtSplit(b, p + 6, Bytes16(m.extPort), m.extIp);
    Read16Back(b, p + 4, m.intPort);
    Read16Back(b, p + 6, m.extPort);
    AtIs(b, p + 8, m.extIp);
  }

  lemma BodyReadBack(b: seq<Byte>, m: MapPacket)
    requires WellFormed(m) && At(b, 24, EncodeBody(m)) && |b| >= 24 && b[0] == m.version
    ensures |b| >= 24 + |EncodeBody(m)|
    ensures Fields(b) == FieldsOf(m)
  {
    hide At, Read16, EncodePorts;
    AtIs(b, 24, EncodeBody(m));
    if m.version == 1 {
      PortsReadBack(b, 24, m);
      ZerosAre(12);
      assert seq(12, i => 0) == Zeros(12);
    } else {
      AtSplit(b, 24, m.nonce, EncodePorts(m));
      AtIs(b, 24, m.nonce);
      PortsReadBack(b, 36, m);
    }
  }

  lemma ZerosAre(n: nat)
    ensures forall k :: 0 <= k < n ==> Zeros(n)[k] == 0
  {
  }

  /** The address that a mapping is to lead to. */
  function MappedAddress(m: MapPacket): seq<Byte> {
    if ThirdParty(m.options).Some? then ThirdParty(m.options).value else m.client
  }

  /** The suggested external address is none, the one that there is, or not insisted on. */
  predicate ExternalAgrees(m: MapPacket, actual: seq<Byte>) {
    || !HasOption(m.options, PREFER_FAILURE) || m.extIp == actual
    || m.extIp == UNSPECIFIED || m.extIp == V4_PREFIX + [0, 0, 0, 0]
  }

  /** When the server accepts a request, apart from its options. */
  predicate Acceptable(m: MapPacket, sender: Ip, cfg: Config) {
    && m.client == sender
    && (ThirdParty(m.options).Some? ==> cfg.allowThirdParty && ThirdParty(m.options).value != sender)
    && (m.protocol == 0 ==> m.intPort == 0)
    && (HasOption(m.options, PREFER_FAILURE) ==> m.extPort != 0)
    && if V4_PREFIX <= MappedAddress(m) then cfg.external.Some? && ExternalAgrees(m, cfg.external.value)
       else ExternalAgrees(m, MappedAddress(m))
  }

  /** The lifetime granted: within the limits, and a deletion stays one. */
  lemma ClampedLifetime(lifetime: nat, cfg: Config)
    requires cfg.minLifetime <= cfg.maxLifetime
    ensures var l := Clamp(lifetime, cfg);
            && (lifetime == 0 ==> l == 0)
            && (lifetime > 0 && cfg.maxLifetime > 0 ==> cfg.minLifetime <= l <= cfg.maxLifetime && l > 0)
            && (cfg.minLifetime <= lifetime <= cfg.maxLifetime ==> l == lifetime)
            && (lifetime > cfg.maxLifetime ==> l == cfg.maxLifetime)
            && (0 < lifetime < cfg.minLifetime ==> l == cfg.minLifetime)
  {
  }

  ghost predicate SameRequest(r: Request, m: MapPacket, lifetime: nat)
    requires WellFormed(m) && |MappedAddress(m)| == 16
  {
    && r.PcpMap? && r.proto == m.protocol && r.iport == m.intPort && r.eport == m.extPort && r.lifetime == lifetime
    && r.client == PrintV4(MappedAddress(m)) && r.address == Some(V4Number(MappedAddress(m)))
    && r.desc == MapDesc(if m.version == 1 then Zeros(12) else m.nonce)
    && (r.preferFailure <==> HasOption(m.options, PREFER_FAILURE))
  }

  /** The result code that goes with a rejection. */
  function Refusal(m: MapPacket, sender: Ip, cfg: Config): nat {
    var (os, lifetime) := (m.options, Clamp(m.lifetime, cfg));
    var fault := LastFault(os, LookedAt(os, 0, lifetime), lifetime);
    if fault != 0 then fault
    else if m.client != sender then 12
    else if ThirdParty(os).Some? && !cfg.allowThirdParty then 5
    else if ThirdParty(os) == Some(sender) || (m.protocol == 0 && m.intPort != 0) then 3
    else if HasOption(os, 2) && m.extPort == 0 then 6
    else if V4_PREFIX <= MappedAddress(m) && cfg.external.None? then 7
    else 11
  }

  /** For every MAP packet that is not too long: what the server decides, in the terms of its fields. */
  lemma PacketDecided(m: MapPacket, sender: Ip, cfg: Config)
    requires WellFormed(m) && |Encode(m)| <= MAX_LEN
    ensures var d, lifetime := Decide(Encode(m), sender, cfg), Clamp(m.lifetime, cfg);
            if ListOk(m.options, OPCODE_MAP, lifetime) && Acceptable(m, sender, cfg) then
              && |MappedAddress(m)| == 16
              && (if V4_PREFIX <= MappedAddress(m) then d.Map? && SameRequest(d.request, m, lifetime)
                  else d == Firewall)
            else d == Rejected(Refusal(m, sender, cfg))
  {
    hide OptionsCode, LastFault, LookedAt, Complaint, Refusal;
    hide Encode, ListOk, Options, OptionList, Fields, Read32, PrintV4, V4Number, MapDesc, HasOption, ThirdParty, Clamp;
    hide Decide, Validated, Acceptable, IsV4Mapped, V4_PREFIX, Zeros;
    var b, lifetime := Encode(m), Clamp(m.lifetime, cfg);
    var header := COMMON_SIZE + if m.version == 1 then MAP_V1_SIZE else MAP_V2_SIZE;
    FieldsReadBack(m);
    MapDecided(b, sender, cfg);
    OptionsAccepted(b, header, OPCODE_MAP, lifetime);
    if ListOk(m.options, OPCODE_MAP, lifetime) {
      StateRead(b, header, OPCODE_MAP, lifetime, NO_OPTIONS);
      ThirdPartySize(m.options, lifetime);
      var s := Options(b, header, OPCODE_MAP, lifetime, NO_OPTIONS).value;
      ValidatedIs(m, s, sender, cfg);
    }
    RefusalIs(m, sender, cfg);
  }

  lemma RefusalIs(m: MapPacket, sender: Ip, cfg: Config)
    requires WellFormed(m) && |Encode(m)| <= MAX_LEN
    ensures var d := Decide(Encode(m), sender, cfg); d.Rejected? ==> d.code == Refusal(m, sender, cfg)
  {
    hide OptionsCode, LastFault, LookedAt, Complaint;
    hide Encode, ListOk, Options, OptionList, Fields, Read32, HasOption, ThirdParty, Clamp, Decide, Validated;
    hide IsV4Mapped, V4_PREFIX, Zeros, ToRequest;
    var b, lifetime := Encode(m), Clamp(m.lifetime, cfg);
    var header := COMMON_SIZE + if m.version == 1 then MAP_V1_SIZE else MAP_V2_SIZE;
    FieldsReadBack(m);
    MapDecided(b, sender, cfg);
    NothingSeen(m.options);
    OptionFault(b, header, m.options, 0, OPCODE_MAP, lifetime, NO_OPTIONS);
    assert LastFault(m.options, 0, lifetime) == 0 by {
      NoFault(m.options, lifetime);
    }
    CodeIsError(b, header, OPCODE_MAP, lifetime, NO_OPTIONS, 0);
    if Options(b, header, OPCODE_MAP, lifetime, NO_OPTIONS).Some? {
      StateRead(b, header, OPCODE_MAP, lifetime, NO_OPTIONS);
      ComplaintIs(m, Options(b, header, OPCODE_MAP, lifetime, NO_OPTIONS).value, sender, cfg);
    }
  }

  lemma NothingSeen(os: seq<PcpOption>)
    ensures Seen(os, 0, NO_OPTIONS) && os[0..] == os
  {
  }

  lemma NoFault(os: seq<PcpOption>, lifetime: nat)
    ensures LastFault(os, 0, lifetime) == 0
  {
  }

  lemma ComplaintIs(m: MapPacket, s: OptionState, sender: Ip, cfg: Config)
    requires |m.nonce| == 12 && s.thirdParty == ThirdParty(m.options)
    requires s.preferFailure <==> HasOption(m.options, 2)
    requires LastFault(m.options, LookedAt(m.options, 0, Clamp(m.lifetime, cfg)), Clamp(m.lifetime, cfg)) == 0
    ensures var f := FieldsOf(m);
            !Validated(f, s, m.client, sender, cfg) ==>
              Complaint(f, s, m.client, sender, cfg) == Refusal(m, sender, cfg)
  {
    hide HasOption, ThirdParty, Zeros, LastFault, LookedAt, Clamp, IsV4Mapped, V4_PREFIX;
    V4Mapped(MappedAddress(m));
  }

  /** The course of a MAP request whose size is in order. */
  lemma MapDecided(b: seq<Byte>, sender: Ip, cfg: Config)
    requires MIN_LEN <= |b| <= MAX_LEN && |b| % 4 == 0 && (b[0] == 1 || b[0] == 2) && b[1] == OPCODE_MAP
    requires |b| >= COMMON_SIZE + if b[0] == 1 then MAP_V1_SIZE else MAP_V2_SIZE
    ensures var header := COMMON_SIZE + if b[0] == 1 then MAP_V1_SIZE else MAP_V2_SIZE;
            var lifetime := Clamp(Read32(b, 4), cfg);
            var (o, f) := (Options(b, header, OPCODE_MAP, lifetime, NO_OPTIONS), Fields(b));
            var d := Decide(b, sender, cfg);
            if o.None? then d == Rejected(OptionsCode(b, header, OPCODE_MAP, lifetime, NO_OPTIONS, 0))
            else if !Validated(f, o.value, b[8..24], sender, cfg) then
              d == Rejected(Complaint(f, o.value, b[8..24], sender, cfg))
            else
              var mapped := if o.value.thirdParty.Some? then o.value.thirdParty.value else b[8..24];
              d == if IsV4Mapped(mapped) then Map(ToRequest(f, o.value, b[8..24], lifetime)) else Firewall
  {
    hide Options, OptionsCode, Fields, Validated, Complaint, IsV4Mapped, Clamp, Read32, ToRequest;
  }

  lemma {:induction false} ThirdPartySize(os: seq<PcpOption>, lifetime: nat)
    requires ListOk(os, OPCODE_MAP, lifetime)
    ensures ThirdParty(os).Some? ==> |ThirdParty(os).value| == 16
  {
    if os != [] {
      assert OptionOk(os[0], OPCODE_MAP, lifetime);
      assert ListOk(os[1..], OPCODE_MAP, lifetime) by {
        forall i, j | 0 <= i < j < |os[1..]| && os[1..][i].code == os[1..][j].code
          ensures os[1..][i].code != THIRD_PARTY && os[1..][i].code != PREFER_FAILURE
        {
          assert os[i + 1].code == os[j + 1].code;
        }
      }
      ThirdPartySize(os[1..], lifetime);
    }
  }

  lemma ValidatedIs(m: MapPacket, s: OptionState, sender: Ip, cfg: Config)
    requires |m.nonce| == 12 && s.thirdParty == ThirdParty(m.options)
    requires s.preferFailure <==> HasOption(m.options, PREFER_FAILURE)
    ensures |MappedAddress(m)| == 16
    ensures var f := FieldsOf(m);
            Validated(f, s, m.client, sender, cfg) <==> Acceptable(m, sender, cfg)
    ensures var mapped := if s.thirdParty.Some? then s.thirdParty.value else m.client;
            mapped == MappedAddress(m) && (IsV4Mapped(mapped) <==> V4_PREFIX <= MappedAddress(m))
  {
    hide HasOption, ThirdParty, Zeros;
    var mapped := MappedAddress(m);
    V4Mapped(mapped);
    NoAddress(m.extIp);
  }

  lemma V4Mapped(ip: Ip)
    ensures IsV4Mapped(ip) <==> V4_PREFIX <= ip
  {
  }

  lemma NoAddress(ip: Ip)
    ensures IsUnspecified(ip) <==> ip == UNSPECIFIED || ip == V4_PREFIX + [0, 0, 0, 0]
  {
    if IsV4Mapped(ip) && ip[12..] == [0, 0, 0, 0] {
      assert ip == ip[..12] + ip[12..];
    }
    if ip == V4_PREFIX + [0, 0, 0, 0] {
      assert ip[..12] == V4_PREFIX && ip[12..] == [0, 0, 0, 0];
    }
  }

  // ---------- what the texts in a request stand for ----------

  lemma NoDot(n: nat)
    ensures forall k :: 0 <= k < |Decimal(n)| ==> Decimal(n)[k] != '.'
  {
    DecimalDigits(n);
  }

  lemma Dots(a: string, b: string, c: string, d: string)
    ensures a + "." + b + "." + c + "." + d == a + (['.'] + (b + (['.'] + (c + (['.'] + d)))))
  {
    Assoc(a, ".", b);
    Assoc(a, "." + b, ".");
    Assoc(a, "." + b + ".", c);
    Assoc(a, "." + b + "." + c, ".");
    Assoc(a, "." + b + "." + c + ".", d);
    Assoc(".", b, ".");
    Assoc(".", b + ".", c);
    Assoc(".", b + "." + c, ".");
    Assoc(".", b + "." + c + ".", d);
    Assoc(b, ".", c);
    Assoc(b, "." + c, ".");
    Assoc(b, "." + c + ".", d);
    Assoc(".", c, ".");
    Assoc(".", c + ".", d);
    Assoc(c, ".", d);
  }

  /** The 32-bit number with these four bytes. */
  function FromBytes(a: nat, b: nat, c: nat, d: nat): bv32
    requires a < 256 && b < 256 && c < 256 && d < 256
  {
    (((a * 256 + b) * 256 + c) * 256 + d) as bv32
  }

  /** A printed address has the four bytes as decimal numbers, and the number is made of the same. */
  lemma AddressRead(ip: Ip)
    ensures var parts := Parts(PrintV4(ip), '.');
            && |parts| == 4 && (forall k :: 0 <= k < 4 ==> Number(parts[k]) == ip[12 + k])
            && V4Number(ip) == FromBytes(Number(parts[0]), Number(parts[1]), Number(parts[2]), Number(parts[3]))
  {
    hide Decimal, Number, Parts;
    var a, b, c, d := Decimal(ip[12]), Decimal(ip[13]), Decimal(ip[14]), Decimal(ip[15]);
    NoDot(ip[12]);
    NoDot(ip[13]);
    NoDot(ip[14]);
    NoDot(ip[15]);
    Dots(a, b, c, d);
    PartsNext(a, '.', b + (['.'] + (c + (['.'] + d))));
    PartsNext(b, '.', c + (['.'] + d));
    PartsNext(c, '.', d);
    PartsLast(d, '.');
    NumberOfDecimal(ip[12]);
    NumberOfDecimal(ip[13]);
    NumberOfDecimal(ip[14]);
    NumberOfDecimal(ip[15]);
  }

  lemma HexDiffers(a: Byte, b: Byte)
    ensures HexByte(a) == HexByte(b) <==> a == b
  {
    if HexByte(a) == HexByte(b) {
      assert HexByte(a)[0] == HexByte(b)[0] && HexByte(a)[1] == HexByte(b)[1];
      HexDigits(a / 16, b / 16);
      HexDigits(a % 16, b % 16);
    }
  }

  lemma HexDigits(x: nat, y: nat)
    requires x < 16 && y < 16
    ensures Hex(x) == Hex(y) <==> x == y
  {
  }

  lemma WordDiffers(v: seq<Byte>, w: seq<Byte>)
    requires |v| == 4 && |w| == 4
    ensures |HexWord(v)| == 8 && |HexWord(w)| == 8 && (HexWord(v) == HexWord(w) <==> v == w)
  {
    hide HexByte;
    HexSize(v);
    HexSize(w);
    var x, y := HexWord(v), HexWord(w);
    if x == y {
      assert x[..2] == HexByte(v[3]) && x[2..4] == HexByte(v[2]) && x[4..6] == HexByte(v[1]) && x[6..] == HexByte(v[0]);
      assert y[..2] == HexByte(w[3]) && y[2..4] == HexByte(w[2]) && y[4..6] == HexByte(w[1]) && y[6..] == HexByte(w[0]);
      HexDiffers(v[0], w[0]);
      HexDiffers(v[1], w[1]);
      HexDiffers(v[2], w[2]);
      HexDiffers(v[3], w[3]);
    }
  }

  lemma HexSize(v: seq<Byte>)
    ensures forall k :: 0 <= k < |v| ==> |HexByte(v[k])| == 2
  {
  }

  /** The digits of a word are its value, the byte with the lowest address being the least one. */
  lemma WordRead(w: seq<Byte>)
    requires |w| == 4
    ensures HexNumber(HexWord(w))
         == (w[0] as int) + 256 * (w[1] as int) + 65536 * (w[2] as int) + 16777216 * (w[3] as int)
  {
    hide HexByte, HexNumber;
    HexPair("", w[3]);
    assert "" + HexByte(w[3]) == HexByte(w[3]);
    HexPair(HexByte(w[3]), w[2]);
    HexPair(HexByte(w[3]) + HexByte(w[2]), w[1]);
    HexPair(HexByte(w[3]) + HexByte(w[2]) + HexByte(w[1]), w[0]);
    HexNothing();
  }

  lemma HexNothing()
    ensures HexNumber("") == 0
  {
  }

  lemma HexPair(s: string, c: Byte)
    ensures HexNumber(s + HexByte(c)) == HexNumber(s) * 256 + (c as int)
  {
    hide Hex;
    var t := s + HexByte(c);
    assert t[..|t| - 1] == s + [Hex(c / 16)] && (s + [Hex(c / 16)])[..|s|] == s;
    HexValueOf(c / 16);
    HexValueOf(c % 16);
  }

  lemma HexValueOf(n: nat)
    requires n < 16
    ensures HexValue(Hex(n)) == n
  {
  }

  function HexValue(c: char): nat {
    if '0' <= c <= '9' then c as int - '0' as int
    else if 'a' <= c <= 'f' then 10 + (c as int - 'a' as int)
    else 0
  }

  /** The number with these hexadecimal digits. */
  function HexNumber(s: string): nat {
    if s == "" then 0 else HexNumber(s[..|s| - 1]) * 16 + HexValue(s[|s| - 1])
  }

  /** A mapping's description tells its nonce: two requests agree on it if and only if their nonces do.
      It marks the mapping as one of PCP. */
  lemma NonceRead(a: seq<Byte>, b: seq<Byte>)
    requires |a| == 12 && |b| == 12
    ensures MapDesc(a) == MapDesc(b) <==> a == b
    ensures "PCP MAP " <= MapDesc(a) && |MapDesc(a)| == 32
    ensures IsPcpDesc(MapDesc(a)) && !IsNatPmpDesc(MapDesc(a))
  {
    hide HexWord;
    WordDiffers(a[..4], b[..4]);
    WordDiffers(a[4..8], b[4..8]);
    WordDiffers(a[8..], b[8..]);
    var x, y := MapDesc(a), MapDesc(b);
    assert x[..4] == "PCP " && x[0] == 'P';
    if x == y {
      assert x[8..16] == HexWord(a[..4]) && x[16..24] == HexWord(a[4..8]) && x[24..] == HexWord(a[8..]);
      assert y[8..16] == HexWord(b[..4]) && y[16..24] == HexWord(b[4..8]) && y[24..] == HexWord(b[8..]);
      assert a == a[..4] + a[4..8] + a[8..] && b == b[..4] + b[4..8] + b[8..];
    }
  }

  // ---------- single options, announcements, and packets that are neither ----------

  /** The rules for options, sections 13.1 to 13.3 of RFC 6887: THIRD_PARTY has an address, PREFER_FAILURE
      has nothing, FILTER has an address with a prefix that covers the leading zeros of an IPv4 one; the
      last two only make sense where a mapping is asked for.  Of the others only those that need not be
      understood are let pass. */
  lemma OptionRules(code: Byte, data: seq<Byte>, opcode: nat, lifetime: nat)
    ensures var ok := OptionOk(PcpOption(code, data), opcode, lifetime);
            && (code == 1 ==> (ok <==> |data| == 16))
            && (code == 2 ==> (ok <==> |data| == 0 && lifetime > 0 && opcode == 1))
            && (code == 3 ==>
                 (ok <==> |data| == 20 && lifetime > 0 && opcode == 1 && data[1] <= 128
                          && (data[4..16] == [0, 0, 0, 0, 0, 0, 0, 0, 0, 0, 0xff, 0xff] ==> data[1] >= 96)))
            && (code == 0 || 4 <= code < 128 ==> !ok)
            && (code >= 128 ==> ok)
            && (code == 2 && opcode == 2 ==>
                 Judge(PcpOption(code, data), opcode, lifetime, NO_OPTIONS) == Judgement(3, true))
  {
  }

  /** An ANNOUNCE request is the header of a version 2 packet with opcode 0, and options. */
  function EncodeAnnounce(lifetime: nat, client: Ip, options: seq<PcpOption>): (r: seq<Byte>)
    requires lifetime < WORD && forall k :: 0 <= k < |options| ==> |options[k].data| < 65536
    ensures |r| % 4 == 0 && |r| >= 24
  {
    ([2, 0] + ([0, 0] + (Bytes32(lifetime) + client))) + EncodeOptions(options)
  }

  /** It is accepted exactly when the client speaks for itself and its options are in order. */
  lemma AnnounceDecided(lifetime: nat, client: Ip, options: seq<PcpOption>, sender: Ip, cfg: Config)
    requires lifetime < WORD && forall k :: 0 <= k < |options| ==> |options[k].data| < 65536
    requires |EncodeAnnounce(lifetime, client, options)| <= MAX_LEN
    ensures Decide(EncodeAnnounce(lifetime, client, options), sender, cfg)
         == if client != sender then Rejected(12)
            else if ListOk(options, OPCODE_ANNOUNCE, 0) then Announced
            else Rejected(LastFault(options, LookedAt(options, 0, 0), 0))
  {
    hide OptionsCode, LastFault, LookedAt;
    hide At, Options, OptionList, ListOk, Bytes32, EncodeOptions, Read32, Clamp;
    var b := EncodeAnnounce(lifetime, client, options);
    var header := [2, 0] + ([0, 0] + (Bytes32(lifetime) + client));
    AtIs(b, 0, b);
    assert b[0..|b|] == b;
    AtSplit(b, 0, header, EncodeOptions(options));
    AtSplit(b, 0, [2, 0], [0, 0] + (Bytes32(lifetime) + client));
    ByteAt(b, 0, [2, 0], 0);
    ByteAt(b, 0, [2, 0], 1);
    AtSplit(b, 2, [0, 0], Bytes32(lifetime) + client);
    AtSplit(b, 4, Bytes32(lifetime), client);
    AtIs(b, 8, client);
    OptionsReadBack(b, 24, options);
    OptionsAccepted(b, COMMON_SIZE, OPCODE_ANNOUNCE, 0);
    NothingSeen(options);
    NoFault(options, 0);
    OptionFault(b, 24, options, 0, OPCODE_ANNOUNCE, 0, NO_OPTIONS);
  }

  /** Packets of a wrong size, version or opcode do nothing but to be answered with the reason. */
  lemma OtherPackets(b: seq<Byte>, sender: Ip, cfg: Config)
    ensures var d := Decide(b, sender, cfg);
            && (d == Ignored <==> |b| < 3)
            && (|b| >= 3 && (|b| < 24 || |b| > 1100 || |b| % 4 != 0) ==> d == Rejected(3))
            && (24 <= |b| <= 1100 && |b| % 4 == 0 && b[0] != 1 && b[0] != 2 ==> d == Rejected(1))
            && (24 <= |b| <= 1100 && |b| % 4 == 0 && b[0] == 1 && b[1] % 128 != 1 ==> d == Rejected(4))
            && (24 <= |b| <= 1100 && |b| % 4 == 0 && b[0] == 2 && b[1] % 128 > 1 ==> d == Rejected(4))
            && (24 <= |b| < 48 && |b| % 4 == 0 && b[0] == 1 && b[1] % 128 == 1 ==> d == Rejected(3))
            && (24 <= |b| < 60 && |b| % 4 == 0 && b[0] == 2 && b[1] % 128 == 1 ==> d == Rejected(3))
  {
    hide Options, OptionsCode, Complaint, Fields, Validated, Clamp, Read32, ToRequest, IsV4Mapped;
  }
}
