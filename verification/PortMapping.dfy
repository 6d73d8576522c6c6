/** The port mapping table and the NAT-PMP and PCP MAP requests that change it: the cyclic search for
    an external port, replacement, and deletion. */
module PortMapping {
  import opened Wrappers
  import opened Permissions
  import opened SeqTools

  datatype Rule = Rule(eport: Port, proto: int, iaddr: string, iport: Port, desc: string, timestamp: int)

  const UDP: int := 17
  const TCP: int := 6

  /** The firewall backend's answers for the duration of one request: which external ports are in use
      on the host, for which of them a deletion or an insertion fails, and the time. */
  datatype Env = Env(inUse: set<Port>, stuck: set<Port>, full: set<Port>, now: nat)

  /** A request for a mapping.  `client` is the printed internal address, `address` the same as a
      number, None where no permission check applies; desc carries the nonce of a PCP request. */
  datatype Request =
    | NatPmp(client: string, address: Option<bv32>, proto: int, iport: Port, eport: Port, lifetime: nat)
    | PcpMap(client: string, address: Option<bv32>, proto: int, iport: Port, eport: Port, lifetime: nat,
             desc: string, preferFailure: bool)

  // result codes, RFC 6886 section 3.5 and RFC 6887 section 7.4
  const SUCCESS: nat := 0
  const NATPMP_NOT_AUTHORIZED: nat := 2
  const NATPMP_FAILURE: nat := 3
  const NATPMP_OUT_OF_RESOURCES: nat := 4
  const PCP_NOT_AUTHORIZED: nat := 2
  const PCP_MALFORMED_REQUEST: nat := 3
  const PCP_NO_RESOURCES: nat := 8
  const PCP_CANNOT_PROVIDE_EXTERNAL: nat := 11

  /** The table after a request, its result code, and the external port it reports. */
  datatype Result = Result(table: seq<Rule>, code: nat, eport: Port)

  // ---------- the table ----------

  predicate HasKey(r: Rule, eport: Port, proto: int) {
    r.eport == eport && r.proto == proto
  }

  function Find(t: seq<Rule>, eport: Port, proto: int): (i: nat)
    ensures i <= |t| && (i < |t| ==> HasKey(t[i], eport, proto))
    ensures forall k :: 0 <= k < i ==> !HasKey(t[k], eport, proto)
  {
    if t == [] || HasKey(t[0], eport, proto) then 0 else 1 + Find(t[1..], eport, proto)
  }

  function Lookup(t: seq<Rule>, eport: Port, proto: int): (r: Option<Rule>)
    ensures r.Some? ==> r.value in t && HasKey(r.value, eport, proto)
    ensures r.None? ==> forall k :: 0 <= k < |t| ==> !HasKey(t[k], eport, proto)
  {
    var i := Find(t, eport, proto);
    if i < |t| then Some(t[i]) else None
  }

  function Delete(t: seq<Rule>, eport: Port, proto: int): seq<Rule> {
    var i := Find(t, eport, proto);
    if i < |t| then Cut(t, i) else t
  }

  ghost predicate Unique(t: seq<Rule>) {
    forall i, j :: 0 <= i < j < |t| ==> !HasKey(t[i], t[j].eport, t[j].proto)
  }

  // ---------- the cyclic order of external ports ----------

  const CYCLE: nat := 65535

  /** The port k steps after start in the order 1, 2, ..., 65535, 1, ... */
  function Nth(start: Port, k: nat): (e: Port)
    requires start > 0 && k <= CYCLE
    ensures e > 0
    ensures e == start <==> k == 0 || k == CYCLE
  {
    if start + k <= CYCLE then start + k else start + k - CYCLE
  }

  /** The 16-bit increment that steps over port zero. */
  function NextPort(e: Port): Port {
    if (e + 1) % 65536 == 0 then 1 else (e + 1) % 65536
  }

  lemma NthNext(start: Port, k: nat)
    requires start > 0 && k < CYCLE
    ensures NextPort(Nth(start, k)) == Nth(start, k + 1)
  {
  }

  /** How far a port is behind start. */
  function Offset(start: Port, e: Port): (k: nat)
    requires start > 0 && e > 0
    ensures k < CYCLE && Nth(start, k) == e
  {
    if e >= start then e - start else e + CYCLE - start
  }

  // ---------- what the search decides for one port ----------

  /** Reserved, Forbidden and Busy send the search on; the others end it.  Keep is NAT-PMP's silent
      end when the client's old mapping cannot be removed. */
  datatype Verdict = Reserved | Forbidden | Busy | Refuse(code: nat) | Keep | Take

  predicate Stops(v: Verdict) {
    v.Refuse? || v.Keep? || v.Take?
  }

  predicate Permitted(perms: seq<Perm>, r: Request, e: Port) {
    r.address.None? || Accepts(perms, e, r.address.value, r.iport)
  }

  predicate IsReserved(r: Request, e: Port) {
    r.PcpMap? && r.proto == UDP && (e == 5350 || e == 5351)
  }

  predicate IsOwn(r: Request, rule: Rule) {
    rule.iaddr == r.client && rule.iport == r.iport
  }

  predicate IsPcpDesc(desc: string) {
    "PCP " <= desc
  }

  predicate IsNatPmpDesc(desc: string) {
    "NAT-PMP" <= desc
  }

  function NatPmpVerdict(t: seq<Rule>, r: Request, perms: seq<Perm>, env: Env, e: Port): Verdict {
    if !Permitted(perms, r, e) then Forbidden
    else if e in env.inUse then Busy
    else match Lookup(t, e, r.proto)
      case None => Take
      case Some(rule) =>
        if !IsOwn(r, rule) then Busy
        else if IsPcpDesc(rule.desc) then Refuse(NATPMP_NOT_AUTHORIZED)
        else if e in env.stuck then Keep
        else Take
  }

  function PcpVerdict(t: seq<Rule>, r: Request, perms: seq<Perm>, env: Env, e: Port): Verdict
    requires r.PcpMap?
  {
    var no := Refuse(PCP_CANNOT_PROVIDE_EXTERNAL);
    if IsReserved(r, e) then (if r.preferFailure then no else Reserved)
    else if !Permitted(perms, r, e) then (if r.preferFailure then no else Forbidden)
    else if e in env.inUse then Busy
    else match Lookup(t, e, r.proto)
      case None => Take
      case Some(rule) =>
        if IsOwn(r, rule) && e !in env.stuck then Take
        else if r.preferFailure then no
        else Busy
  }

  function VerdictOf(t: seq<Rule>, r: Request, perms: seq<Perm>, env: Env, e: Port): Verdict {
    if r.NatPmp? then NatPmpVerdict(t, r, perms, env, e) else PcpVerdict(t, r, perms, env, e)
  }

  function VerdictAt(t: seq<Rule>, r: Request, perms: seq<Perm>, env: Env, start: Port, k: nat): Verdict
    requires start > 0 && k <= CYCLE
  {
    VerdictOf(t, r, perms, env, Nth(start, k))
  }

  /** The first position from k on in the cycle at which the search ends, CYCLE if there is none. */
  function FirstStop(t: seq<Rule>, r: Request, perms: seq<Perm>, env: Env, start: Port, k: nat): (n: nat)
    requires start > 0 && k <= CYCLE
    ensures k <= n <= CYCLE
    ensures forall j :: k <= j < n ==> !Stops(VerdictAt(t, r, perms, env, start, j))
    ensures n < CYCLE ==> Stops(VerdictAt(t, r, perms, env, start, n))
    decreases CYCLE - k
  {
    if k == CYCLE || Stops(VerdictAt(t, r, perms, env, start, k)) then k
    else FirstStop(t, r, perms, env, start, k + 1)
  }

  /** Some port among the first n was permitted but not available. */
  ghost predicate SomeBusy(t: seq<Rule>, r: Request, perms: seq<Perm>, env: Env, start: Port, n: nat)
    requires start > 0 && n <= CYCLE
  {
    exists j :: 0 <= j < n && VerdictAt(t, r, perms, env, start, j).Busy?
  }

  // ---------- the effect of a mapping request ----------

  function DescOf(r: Request, e: Port): string {
    if r.NatPmp? then "NAT-PMP " + Decimal(e) + (if r.proto == UDP then " UDP" else " TCP") else r.desc
  }

  function NewRule(r: Request, env: Env, e: Port): Rule {
    Rule(e, r.proto, r.client, r.iport, DescOf(r, e), (env.now + r.lifetime) % 0x1_0000_0000)
  }

  /** The client's old mapping goes first; the insertion of the new one may still fail. */
  function Install(t: seq<Rule>, r: Request, env: Env, e: Port): Result {
    var rest := Delete(t, e, r.proto);
    if e in env.full then Result(rest, if r.NatPmp? then NATPMP_FAILURE else PCP_NO_RESOURCES, e)
    else Result(rest + [NewRule(r, env, e)], SUCCESS, e)
  }

  function StartOf(r: Request): Port {
    if r.eport == 0 then r.iport else r.eport
  }

  function BusyCode(r: Request): nat {
    if r.NatPmp? then NATPMP_OUT_OF_RESOURCES else PCP_NO_RESOURCES
  }

  function NothingCode(r: Request): nat {
    if r.NatPmp? then NATPMP_NOT_AUTHORIZED else PCP_NOT_AUTHORIZED
  }

  /** What the verdict on the port where the search ends leads to. */
  function Ended(t: seq<Rule>, r: Request, env: Env, e: Port, v: Verdict): Result {
    match v
    case Refuse(code) => Result(t, code, e)
    case Keep => Result(t, SUCCESS, e)
    case _ => Install(t, r, env, e)
  }

  ghost function Mapped(t: seq<Rule>, r: Request, perms: seq<Perm>, env: Env): Result
    requires StartOf(r) > 0
  {
    var start := StartOf(r);
    var k := FirstStop(t, r, perms, env, start, 0);
    if k == CYCLE then
      Result(t, if SomeBusy(t, r, perms, env, start, CYCLE) then BusyCode(r) else NothingCode(r), start)
    else Ended(t, r, env, Nth(start, k), VerdictOf(t, r, perms, env, Nth(start, k)))
  }

  // ---------- the effect of a deletion request ----------

  /** The rules that a NAT-PMP deletion request is about. */
  predicate ToDelete(r: Request, rule: Rule) {
    && rule.iaddr == r.client && IsNatPmpDesc(rule.desc)
    && rule.proto == r.proto && (r.iport == 0 || r.iport == rule.iport)
  }

  /** NAT-PMP deletion: in table order, up to the first rule that cannot be deleted. */
  function NatPmpDeleted(t: seq<Rule>, r: Request, env: Env): (seq<Rule>, nat) {
    if t == [] then ([], SUCCESS)
    else if !ToDelete(r, t[0]) then
      var (rest, code) := NatPmpDeleted(t[1..], r, env);
      ([t[0]] + rest, code)
    else if t[0].eport in env.stuck then (t, NATPMP_NOT_AUTHORIZED)
    else NatPmpDeleted(t[1..], r, env)
  }

  predicate PcpMatches(r: Request, rule: Rule) {
    rule.iaddr == r.client && rule.proto == r.proto && (rule.iport == r.iport || r.iport == 0)
  }

  function FindPcp(t: seq<Rule>, r: Request): (i: nat)
    ensures i <= |t| && (i < |t| ==> PcpMatches(r, t[i]))
    ensures forall k :: 0 <= k < i ==> !PcpMatches(r, t[k])
  {
    if t == [] || PcpMatches(r, t[0]) then 0 else 1 + FindPcp(t[1..], r)
  }

  /** PCP deletion: only the first matching rule, and only with the right nonce. */
  function PcpDeleted(t: seq<Rule>, r: Request, env: Env): (seq<Rule>, nat)
    requires r.PcpMap?
  {
    var i := FindPcp(t, r);
    if i == |t| then (t, SUCCESS)
    else if t[i].desc != r.desc then (t, PCP_NOT_AUTHORIZED)
    else if t[i].eport in env.stuck then (t, PCP_NO_RESOURCES)
    else (Cut(t, i), SUCCESS)
  }

  /** What one request does. */
  ghost function Served(t: seq<Rule>, r: Request, perms: seq<Perm>, env: Env): Result {
    match r
    case NatPmp(_, _, _, iport, eport, lifetime) =>
      if lifetime == 0 then
        var (t', code) := NatPmpDeleted(t, r, env);
        Result(t', code, 0)
      else if iport == 0 then Result(t, NATPMP_NOT_AUTHORIZED, eport)
      else Mapped(t, r, perms, env)
    case PcpMap(_, _, _, iport, eport, lifetime, _, _) =>
      if lifetime == 0 then
        var (t', code) := PcpDeleted(t, r, env);
        Result(t', code, eport)
      else if StartOf(r) == 0 then Result(t, PCP_MALFORMED_REQUEST, 0)
      else Mapped(t, r, perms, env)
  }

  // ---------- the server ----------

  class Gateway {
    var table: seq<Rule>

    constructor ()
      ensures table == []
    {
      table := [];
    }

    /** get_redirect_rule */
    method GetRedirectRule(eport: Port, proto: int) returns (rule: Option<Rule>)
      ensures rule == Lookup(table, eport, proto)
    {
      var i := 0;
      while i < |table| && !HasKey(table[i], eport, proto)
        invariant i <= |table| && Find(table, eport, proto) == i + Find(table[i..], eport, proto)
      {
        DropNext(table, i);
        i := i + 1;
      }
      return if i < |table| then Some(table[i]) else None;
    }

    /** _upnp_delete_redir: 0, or -1 without effect. */
    method DeleteRedir(eport: Port, proto: int, env: Env) returns (r: int)
      requires Lookup(table, eport, proto).Some?
      modifies this
      ensures r == if eport in env.stuck then -1 else 0
      ensures table == if eport in env.stuck then old(table) else Delete(old(table), eport, proto)
    {
      if eport in env.stuck {
        return -1;
      }
      table := Delete(table, eport, proto);
      return 0;
    }

    /** upnp_redirect_internal: 0, or -1 without effect. */
    method Redirect(rule: Rule, env: Env) returns (r: int)
      modifies this
      ensures r == if rule.eport in env.full then -1 else 0
      ensures table == if rule.eport in env.full then old(table) else old(table) + [rule]
    {
      if rule.eport in env.full {
        return -1;
      }
      table := table + [rule];
      return 0;
    }

    /** The mapping branch of ProcessIncomingNATPMPPacket for iport > 0 and lifetime > 0. */
    method MapNatPmp(r: Request, perms: seq<Perm>, env: Env) returns (code: nat, eport: Port)
      requires r.NatPmp? && r.iport > 0 && r.address.Some?
      modifies this
      ensures Result(table, code, eport) == Mapped(old(table), r, perms, env)
    {
      hide Accepts, Lookup, Delete, NewRule, IsPcpDesc, FirstStop, Mapped, Searching, Install;
      eport := if r.eport == 0 then r.iport else r.eport;
      code := SUCCESS;
      var eportFirst: Port := 0;
      var anyEportAllowed := false;
      ghost var t, start, k := table, eport, 0;
      SearchStarts(t, r, perms, env, start);
      while true
        invariant k <= CYCLE && eport == Nth(start, k) && table == t
        invariant eportFirst == if k == 0 then 0 else start
        invariant Searching(t, r, perms, env, start, k, anyEportAllowed)
        decreases CYCLE - k
      {
        SearchEnds(t, r, perms, env, start, k, anyEportAllowed);
        if eportFirst == 0 {
          eportFirst := eport;
        } else if eport == eportFirst {
          return if !anyEportAllowed then NATPMP_NOT_AUTHORIZED else NATPMP_OUT_OF_RESOURCES, eport;
        }
        SearchMoves(t, r, perms, env, start, k, anyEportAllowed);
        var allowed := CheckRule(perms, eport, r.address.value, r.iport);
        if !allowed {
          eport, k := NextPort(eport), k + 1;
          continue;
        }
        anyEportAllowed := true;
        if eport in env.inUse {
          eport, k := NextPort(eport), k + 1;
          continue;
        }
        var done;
        done, code := TakeNatPmpPort(r, perms, env, eport);
        if done {
          return;
        }
        eport, k := NextPort(eport), k + 1;
      }
    }

    /** The end of the loop body: the port is taken, or refused, or kept, or passed over. */
    method TakeNatPmpPort(r: Request, ghost perms: seq<Perm>, env: Env, eport: Port) returns (done: bool, code: nat)
      requires r.NatPmp? && Permitted(perms, r, eport) && eport !in env.inUse
      modifies this
      ensures var v := VerdictOf(old(table), r, perms, env, eport);
              if done then Stops(v) && Result(table, code, eport) == Ended(old(table), r, env, eport, v)
              else v == Busy && table == old(table)
    {
      hide Accepts, Permitted, Lookup, Delete, NewRule, IsPcpDesc;
      var old_ := GetRedirectRule(eport, r.proto);
      if old_.Some? {
        if r.client == old_.value.iaddr && r.iport == old_.value.iport {
          if IsPcpDesc(old_.value.desc) {
            return true, NATPMP_NOT_AUTHORIZED;
          }
          var d := DeleteRedir(eport, r.proto, env);
          if d < 0 {
            return true, SUCCESS;
          }
        } else {
          return false, SUCCESS;
        }
      } else {
        DeleteNothing(table, eport, r.proto);
      }
      NewRuleKey(r, env, eport);
      var added := Redirect(NewRule(r, env, eport), env);
      return true, if added < 0 then NATPMP_FAILURE else SUCCESS;
    }

    /** The deletion loop of ProcessIncomingNATPMPPacket: the table shifts under the index. */
    method DeleteNatPmp(r: Request, env: Env) returns (code: nat)
      requires r.NatPmp? && Unique(table)
      modifies this
      ensures (table, code) == NatPmpDeleted(old(table), r, env)
    {
      hide ToDelete, Delete, Unique, NatPmpDeleted, DeletedFrom, Cut, Lookup;
      var index := 0;
      code := SUCCESS;
      ghost var t := table;
      DeletionStarts(t, r, env);
      while index < |table|
        invariant index <= |table| && Unique(table)
        invariant DeletedFrom(t, r, env, table, index)
        decreases |table| - index
      {
        var rule := table[index];
        DeletionStep(t, r, env, table, index);
        if ToDelete(r, rule) {
          KeyIsAt(table, index);
          var d := DeleteRedir(rule.eport, rule.proto, env);
          if d < 0 {
            return NATPMP_NOT_AUTHORIZED;
          }
        } else {
          index := index + 1;
        }
      }
      DeletionEnds(t, r, env, table);
      return SUCCESS;
    }

    /** The NAT-PMP mapping request. */
    method ProcessNatPmp(r: Request, perms: seq<Perm>, env: Env) returns (code: nat, eport: Port)
      requires r.NatPmp? && r.address.Some? && Unique(table)
      modifies this
      ensures Result(table, code, eport) == Served(old(table), r, perms, env)
    {
      hide Mapped, NatPmpDeleted;
      if r.lifetime == 0 {
        code := DeleteNatPmp(r, env);
        return code, 0;
      } else if r.iport == 0 {
        return NATPMP_NOT_AUTHORIZED, r.eport;
      }
      code, eport := MapNatPmp(r, perms, env);
    }

    /** CreatePCPMap_NAT */
    method CreatePcpMapNat(r: Request, perms: seq<Perm>, env: Env) returns (code: nat, eport: Port)
      requires r.PcpMap? && r.lifetime > 0
      modifies this
      ensures Result(table, code, eport) == Served(old(table), r, perms, env)
    {
      hide Accepts, Lookup, Delete, NewRule, FirstStop, Mapped, Searching, Install;
      eport := r.eport;
      if eport == 0 {
        eport := r.iport;
      }
      if eport == 0 {
        return PCP_MALFORMED_REQUEST, eport;
      }
      var eportFirst: Port := 0;
      var anyEportAllowed := false;
      ghost var t, start, k := table, eport, 0;
      SearchStarts(t, r, perms, env, start);
      while true
        invariant k <= CYCLE && eport == Nth(start, k) && table == t
        invariant eportFirst == if k == 0 then 0 else start
        invariant Searching(t, r, perms, env, start, k, anyEportAllowed)
        decreases CYCLE - k
      {
        SearchEnds(t, r, perms, env, start, k, anyEportAllowed);
        if eportFirst == 0 {
          eportFirst := eport;
        } else if eport == eportFirst {
          return if !anyEportAllowed then PCP_NOT_AUTHORIZED else PCP_NO_RESOURCES, eport;
        }
        SearchMoves(t, r, perms, env, start, k, anyEportAllowed);
        if r.proto == UDP && (eport == 5350 || eport == 5351) {
          if r.preferFailure {
            return PCP_CANNOT_PROVIDE_EXTERNAL, eport;
          }
          eport, k := NextPort(eport), k + 1;
          continue;
        }
        var allowed := true;
        if r.address.Some? {
          allowed := CheckRule(perms, eport, r.address.value, r.iport);
        }
        if !allowed {
          if r.preferFailure {
            return PCP_CANNOT_PROVIDE_EXTERNAL, eport;
          }
          eport, k := NextPort(eport), k + 1;
          continue;
        }
        anyEportAllowed := true;
        if eport in env.inUse {
          eport, k := NextPort(eport), k + 1;
          continue;
        }
        var done;
        done, code := TakePcpPort(r, perms, env, eport);
        if done {
          return;
        }
        eport, k := NextPort(eport), k + 1;
      }
    }

    /** The end of the loop body of CreatePCPMap_NAT: the port is taken, or refused, or passed over. */
    method TakePcpPort(r: Request, ghost perms: seq<Perm>, env: Env, eport: Port) returns (done: bool, code: nat)
      requires r.PcpMap? && !IsReserved(r, eport) && Permitted(perms, r, eport) && eport !in env.inUse
      modifies this
      ensures var v := VerdictOf(old(table), r, perms, env, eport);
              if done then Stops(v) && Result(table, code, eport) == Ended(old(table), r, env, eport, v)
              else v == Busy && table == old(table)
    {
      hide Accepts, Permitted, IsReserved, Lookup, Delete, NewRule;
      var old_ := GetRedirectRule(eport, r.proto);
      if old_.None? {
        DeleteNothing(table, eport, r.proto);
        code := AddPcp(r, env, eport);
        return true, code;
      }
      if r.client != old_.value.iaddr || r.iport != old_.value.iport {
        if r.preferFailure {
          return true, PCP_CANNOT_PROVIDE_EXTERNAL;
        }
      } else {
        var d := DeleteRedir(eport, r.proto, env);
        if d == 0 {
          code := AddPcp(r, env, eport);
          return true, code;
        } else if r.preferFailure {
          return true, PCP_CANNOT_PROVIDE_EXTERNAL;
        }
      }
      return false, SUCCESS;
    }

    /** What follows the search loop of CreatePCPMap_NAT. */
    method AddPcp(r: Request, env: Env, eport: Port) returns (code: nat)
      requires r.PcpMap?
      modifies this
      ensures if eport in env.full then table == old(table) && code == PCP_NO_RESOURCES
              else table == old(table) + [NewRule(r, env, eport)] && code == SUCCESS
    {
      hide DescOf;
      var added := Redirect(NewRule(r, env, eport), env);
      return if added < 0 then PCP_NO_RESOURCES else SUCCESS;
    }

    /** DeletePCPMap for NAT mappings */
    method DeletePcpMap(r: Request, env: Env) returns (code: nat)
      requires r.PcpMap? && Unique(table)
      modifies this
      ensures (table, code) == PcpDeleted(old(table), r, env)
    {
      hide PcpMatches, Delete, Unique, Cut, Lookup;
      var index := 0;
      while index < |table|
        invariant index <= |table| && table == old(table)
        invariant FindPcp(table, r) == index + FindPcp(table[index..], r)
      {
        DropNext(table, index);
        var rule := table[index];
        if PcpMatches(r, rule) {
          if rule.desc != r.desc {
            return PCP_NOT_AUTHORIZED;
          }
          KeyIsAt(table, index);
          var d := DeleteRedir(rule.eport, rule.proto, env);
          return if d >= 0 then SUCCESS else PCP_NO_RESOURCES;
        }
        index := index + 1;
      }
      return SUCCESS;
    }
  }

  // ---------- steps of the loops ----------

  /** The search has passed the first k ports. */
  ghost predicate Searching(t: seq<Rule>, r: Request, perms: seq<Perm>, env: Env, start: Port, k: nat, any: bool)
    requires start > 0 && k <= CYCLE
  {
    && (forall j :: 0 <= j < k ==> !Stops(VerdictAt(t, r, perms, env, start, j)))
    && (any <==> SomeBusy(t, r, perms, env, start, k))
  }

  lemma SearchStarts(t: seq<Rule>, r: Request, perms: seq<Perm>, env: Env, start: Port)
    requires start > 0
    ensures Searching(t, r, perms, env, start, 0, false)
  {
  }

  lemma SearchMoves(t: seq<Rule>, r: Request, perms: seq<Perm>, env: Env, start: Port, k: nat, any: bool)
    requires start > 0 && k < CYCLE && Searching(t, r, perms, env, start, k, any)
    ensures NextPort(Nth(start, k)) == Nth(start, k + 1)
    ensures var v := VerdictOf(t, r, perms, env, Nth(start, k));
            !Stops(v) ==> Searching(t, r, perms, env, start, k + 1, any || v.Busy?)
  {
    hide VerdictOf;
    NthNext(start, k);
    BusyStep(t, r, perms, env, start, k);
  }

  /** What the outcome is when the search stops at position k, or has tried all ports. */
  lemma SearchEnds(t: seq<Rule>, r: Request, perms: seq<Perm>, env: Env, start: Port, k: nat, any: bool)
    requires start > 0 && start == StartOf(r) && k <= CYCLE && Searching(t, r, perms, env, start, k, any)
    ensures k == CYCLE ==>
      Mapped(t, r, perms, env) == Result(t, if any then BusyCode(r) else NothingCode(r), start)
    ensures k < CYCLE && Stops(VerdictOf(t, r, perms, env, Nth(start, k))) ==>
      Mapped(t, r, perms, env) == Ended(t, r, env, Nth(start, k), VerdictOf(t, r, perms, env, Nth(start, k)))
  {
    hide VerdictOf, Install, SomeBusy;
    var n := FirstStop(t, r, perms, env, start, 0);
    assert n < CYCLE ==> Stops(VerdictAt(t, r, perms, env, start, n));
    if k < CYCLE && Stops(VerdictOf(t, r, perms, env, Nth(start, k))) {
      assert Stops(VerdictAt(t, r, perms, env, start, k));
    }
  }

  lemma BusyStep(t: seq<Rule>, r: Request, perms: seq<Perm>, env: Env, start: Port, k: nat)
    requires start > 0 && k < CYCLE
    ensures SomeBusy(t, r, perms, env, start, k + 1)
       <==> SomeBusy(t, r, perms, env, start, k) || VerdictAt(t, r, perms, env, start, k).Busy?
  {
    hide VerdictAt;
  }

  lemma NewRuleKey(r: Request, env: Env, e: Port)
    ensures NewRule(r, env, e).eport == e && NewRule(r, env, e).proto == r.proto
    ensures NewRule(r, env, e).iaddr == r.client && NewRule(r, env, e).iport == r.iport
    ensures NewRule(r, env, e).desc == DescOf(r, e)
  {
  }

  // ---------- deletion under a shifting index ----------

  /** The rules before the index stay; the rest of the current table is still to be gone through. */
  ghost predicate DeletedFrom(t: seq<Rule>, r: Request, env: Env, now: seq<Rule>, index: nat)
    requires index <= |now|
  {
    var rest := NatPmpDeleted(now[index..], r, env);
    NatPmpDeleted(t, r, env) == (now[..index] + rest.0, rest.1)
  }

  lemma DeletionStarts(t: seq<Rule>, r: Request, env: Env)
    ensures DeletedFrom(t, r, env, t, 0)
  {
    assert t[0..] == t && t[..0] + NatPmpDeleted(t, r, env).0 == NatPmpDeleted(t, r, env).0;
  }

  lemma DeletionEnds(t: seq<Rule>, r: Request, env: Env, now: seq<Rule>)
    requires DeletedFrom(t, r, env, now, |now|)
    ensures NatPmpDeleted(t, r, env) == (now, SUCCESS)
  {
    assert now[|now|..] == [] && now[..|now|] + [] == now;
  }

  lemma DeletionStep(t: seq<Rule>, r: Request, env: Env, now: seq<Rule>, index: nat)
    requires index < |now| && DeletedFrom(t, r, env, now, index)
    ensures !ToDelete(r, now[index]) ==> DeletedFrom(t, r, env, now, index + 1)
    ensures ToDelete(r, now[index]) && now[index].eport in env.stuck ==>
      NatPmpDeleted(t, r, env) == (now, NATPMP_NOT_AUTHORIZED)
    ensures ToDelete(r, now[index]) && now[index].eport !in env.stuck ==> DeletedFrom(t, r, env, Cut(now, index), index)
  {
    hide ToDelete;
    var rule, before, after := now[index], now[..index], now[index + 1..];
    DropNext(now, index);
    Assoc(before, [rule], NatPmpDeleted(after, r, env).0);
    assert now[..index + 1] == before + [rule];
    assert now[..index] + now[index..] == now;
    assert Cut(now, index)[..index] == before && Cut(now, index)[index..] == after;
  }

  lemma DeleteNothing(t: seq<Rule>, eport: Port, proto: int)
    requires Lookup(t, eport, proto).None?
    ensures Delete(t, eport, proto) == t
  {
  }

  /** In a table without duplicates a rule is deleted where it was found. */
  lemma KeyIsAt(t: seq<Rule>, i: nat)
    requires Unique(t) && i < |t|
    ensures Lookup(t, t[i].eport, t[i].proto) == Some(t[i])
    ensures Delete(t, t[i].eport, t[i].proto) == Cut(t, i)
    ensures |Cut(t, i)| == |t| - 1 && Unique(Cut(t, i))
  {
    hide Cut;
    var j := Find(t, t[i].eport, t[i].proto);
    assert HasKey(t[i], t[i].eport, t[i].proto);
    assert j <= i;
    assert HasKey(t[j], t[i].eport, t[i].proto);
    CutUnique(t, i);
  }

  lemma CutUnique(t: seq<Rule>, i: nat)
    requires Unique(t) && i < |t|
    ensures |Cut(t, i)| == |t| - 1 && Unique(Cut(t, i))
  {
  }
}
