/** What the port mapping requests guarantee: which port is granted, what a deletion removes, and what
    no run of requests ever touches. */
module PortMappingProperties {
  import opened Wrappers
  import opened Permissions
  import opened SeqTools
  import opened PortMapping

  // ---------- the granted port ----------

  /** A port that the request could be given: free, or the requester's own.  PCP passes over a port
      whose old mapping the backend will not delete; NAT-PMP does not. */
  predicate Usable(t: seq<Rule>, r: Request, perms: seq<Perm>, env: Env, e: Port) {
    && Allowed(r, perms, e) && e !in env.inUse
    && match Lookup(t, e, r.proto)
       case None => true
       case Some(rule) => rule.iaddr == r.client && rule.iport == r.iport && (r.PcpMap? ==> e !in env.stuck)
  }

  /** A port that the permission rules let the client have, and that PCP does not keep for itself. */
  predicate Allowed(r: Request, perms: seq<Perm>, e: Port) {
    && e > 0 && !(r.PcpMap? && r.proto == 17 && (e == 5350 || e == 5351))
    && (r.address.Some? ==> Accepts(perms, e, r.address.value, r.iport))
  }

  /** The usable port that comes first in the cyclic order from the suggested one. */
  ghost predicate FirstUsable(t: seq<Rule>, r: Request, perms: seq<Perm>, env: Env, e: Port)
    requires StartOf(r) > 0
  {
    && Usable(t, r, perms, env, e)
    && forall e': Port :: Usable(t, r, perms, env, e') ==> Offset(StartOf(r), e) <= Offset(StartOf(r), e')
  }

  /** What a request makes of the port it is given. */
  function Granted(t: seq<Rule>, r: Request, env: Env, e: Port): Result {
    if r.NatPmp? && HasPcpMapping(t, r, e) then Result(t, NATPMP_NOT_AUTHORIZED, e)
    else if FailsToReplace(t, r, env, e) then Result(t, SUCCESS, e)
    else Install(t, r, env, e)
  }

  /** A NAT-PMP request for a port whose old mapping, not one of PCP, the backend will not delete. */
  predicate FailsToReplace(t: seq<Rule>, r: Request, env: Env, e: Port) {
    r.NatPmp? && Lookup(t, e, r.proto).Some? && !HasPcpMapping(t, r, e) && e in env.stuck
  }

  ghost predicate SomePermitted(r: Request, perms: seq<Perm>) {
    exists e: Port :: Allowed(r, perms, e)
  }

  predicate HasPcpMapping(t: seq<Rule>, r: Request, e: Port) {
    Lookup(t, e, r.proto).Some? && "PCP " <= Lookup(t, e, r.proto).value.desc
  }

  lemma VerdictMeaning(t: seq<Rule>, r: Request, perms: seq<Perm>, env: Env, e: Port)
    requires e > 0 && (r.PcpMap? ==> !r.preferFailure)
    ensures var v := VerdictOf(t, r, perms, env, e);
            && (Stops(v) <==> Usable(t, r, perms, env, e))
            && (v.Busy? || Stops(v) <==> Allowed(r, perms, e))
            && (Stops(v) ==> Ended(t, r, env, e, v) == Granted(t, r, env, e))
  {
    hide Accepts, Install;
  }

  /** When failure is not preferred, the search ends at the usable port that comes first in the cyclic
      order from the suggested one, whatever the backend does.  Without a usable port the request is
      "not authorized" exactly when no port is permitted at all. */
  lemma GrantsFirstUsable(t: seq<Rule>, r: Request, perms: seq<Perm>, env: Env)
    requires StartOf(r) > 0 && (r.PcpMap? ==> !r.preferFailure)
    ensures var res := Mapped(t, r, perms, env);
            if exists e: Port :: Usable(t, r, perms, env, e) then
              FirstUsable(t, r, perms, env, res.eport) && res == Granted(t, r, env, res.eport)
            else res == Result(t, if !SomePermitted(r, perms) then 2 else if r.NatPmp? then 4 else 8, StartOf(r))
  {
    hide VerdictOf, Usable, Allowed, Granted, Ended, SomeBusy, SomePermitted;
    var start := StartOf(r);
    var n := FirstStop(t, r, perms, env, start, 0);
    forall k | 0 <= k < CYCLE
      ensures Stops(VerdictAt(t, r, perms, env, start, k)) <==> Usable(t, r, perms, env, Nth(start, k))
    {
      VerdictMeaning(t, r, perms, env, Nth(start, k));
    }
    forall e: Port | Usable(t, r, perms, env, e)
      ensures e > 0 && n <= Offset(start, e)
    {
      UsablePositive(t, r, perms, env, e);
      assert Nth(start, Offset(start, e)) == e;
      assert Stops(VerdictAt(t, r, perms, env, start, Offset(start, e)));
    }
    if n < CYCLE {
      var e := Nth(start, n);
      VerdictMeaning(t, r, perms, env, e);
      assert Usable(t, r, perms, env, e);
      OffsetOfNth(start, n);
      GrantedPort(t, r, env, e);
    } else {
      NothingUsable(t, r, perms, env, start);
    }
  }

  lemma GrantedPort(t: seq<Rule>, r: Request, env: Env, e: Port)
    ensures Granted(t, r, env, e).eport == e
  {
  }

  lemma UsablePositive(t: seq<Rule>, r: Request, perms: seq<Perm>, env: Env, e: Port)
    requires Usable(t, r, perms, env, e)
    ensures e > 0
  {
  }

  lemma OffsetOfNth(start: Port, n: nat)
    requires start > 0 && n < CYCLE
    ensures Offset(start, Nth(start, n)) == n
  {
  }

  lemma NothingUsable(t: seq<Rule>, r: Request, perms: seq<Perm>, env: Env, start: Port)
    requires start > 0 && (r.PcpMap? ==> !r.preferFailure)
    requires FirstStop(t, r, perms, env, start, 0) == CYCLE
    ensures SomeBusy(t, r, perms, env, start, CYCLE) <==> SomePermitted(r, perms)
  {
    hide VerdictOf, Usable, Accepts, HasPcpMapping, Ended, Granted, FirstStop;
    if SomeBusy(t, r, perms, env, start, CYCLE) {
      var j :| 0 <= j < CYCLE && VerdictAt(t, r, perms, env, start, j).Busy?;
      VerdictMeaning(t, r, perms, env, Nth(start, j));
    }
    if SomePermitted(r, perms) {
      var e: Port :| Allowed(r, perms, e);
      VerdictMeaning(t, r, perms, env, e);
      var k := Offset(start, e);
      assert Nth(start, k) == e;
      assert !Stops(VerdictAt(t, r, perms, env, start, k));
      assert VerdictAt(t, r, perms, env, start, k).Busy?;
    }
  }

  // ---------- PREFER_FAILURE ----------

  /** The first position from k on whose port is not in use on the host. */
  function FirstFree(start: Port, inUse: set<Port>, k: nat): (n: nat)
    requires start > 0 && k <= CYCLE
    ensures k <= n <= CYCLE
    ensures forall j :: k <= j < n ==> Nth(start, j) in inUse
    ensures n < CYCLE ==> Nth(start, n) !in inUse
    decreases CYCLE - k
  {
    if k == CYCLE || Nth(start, k) !in inUse then k else FirstFree(start, inUse, k + 1)
  }

  /** Nothing stands in the way of mapping e for a PREFER_FAILURE request. */
  predicate Grantable(t: seq<Rule>, r: Request, perms: seq<Perm>, env: Env, e: Port) {
    Usable(t, r, perms, env, e) && e !in env.full && (Lookup(t, e, r.proto).Some? ==> e !in env.stuck)
  }

  predicate PassableBefore(r: Request, perms: seq<Perm>, start: Port, n: nat)
    requires start > 0 && n <= CYCLE
  {
    forall j :: 0 <= j < n ==> Passable(r, perms, Nth(start, j))
  }

  predicate Passable(r: Request, perms: seq<Perm>, e: Port) {
    !IsReserved(r, e) && Permitted(perms, r, e)
  }

  /** PREFER_FAILURE is not honoured exactly when the suggested port is in use on the host, the ports
      behind it that are in use too are unreserved and permitted, and the first one that is not in use
      can be granted: then that one is granted instead. */
  lemma PreferFailureOutcome(t: seq<Rule>, r: Request, perms: seq<Perm>, env: Env)
    requires r.PcpMap? && r.preferFailure && StartOf(r) > 0
    ensures var res, start := Mapped(t, r, perms, env), StartOf(r);
            var n := FirstFree(start, env.inUse, 0);
            res.code == SUCCESS && res.eport != start
            <==>
            start in env.inUse && n < CYCLE && PassableBefore(r, perms, start, n)
            && Grantable(t, r, perms, env, Nth(start, n))
  {
    hide VerdictOf, Grantable, Install, SomeBusy, PassableBefore, FirstStop, FirstFree;
    var start := StartOf(r);
    var n := FirstFree(start, env.inUse, 0);
    PreferStop(t, r, perms, env, start);
    assert Nth(start, 0) == start;
    if n < CYCLE {
      PreferVerdict(t, r, perms, env, Nth(start, n));
      InstallCode(t, r, env, Nth(start, n));
    }
  }

  /** Where the search for a PREFER_FAILURE request ends. */
  lemma PreferStop(t: seq<Rule>, r: Request, perms: seq<Perm>, env: Env, start: Port)
    requires r.PcpMap? && r.preferFailure && start > 0
    ensures var n, k := FirstFree(start, env.inUse, 0), FirstStop(t, r, perms, env, start, 0);
            if PassableBefore(r, perms, start, n) then k == n
            else k < n && VerdictOf(t, r, perms, env, Nth(start, k)) == Refuse(PCP_CANNOT_PROVIDE_EXTERNAL)
  {
    hide VerdictOf, Passable, Grantable;
    var n := FirstFree(start, env.inUse, 0);
    var k := FirstStop(t, r, perms, env, start, 0);
    forall j | 0 <= j < CYCLE
      ensures !Stops(VerdictAt(t, r, perms, env, start, j)) <==>
        Nth(start, j) in env.inUse && Passable(r, perms, Nth(start, j))
    {
      PreferVerdict(t, r, perms, env, Nth(start, j));
    }
    if n < CYCLE {
      assert Stops(VerdictAt(t, r, perms, env, start, n));
    }
    if k < CYCLE {
      PreferVerdict(t, r, perms, env, Nth(start, k));
    }
  }

  lemma InstallCode(t: seq<Rule>, r: Request, env: Env, e: Port)
    ensures Install(t, r, env, e).eport == e
    ensures Install(t, r, env, e).code == SUCCESS <==> e !in env.full
  {
  }

  lemma PreferVerdict(t: seq<Rule>, r: Request, perms: seq<Perm>, env: Env, e: Port)
    requires r.PcpMap? && r.preferFailure && e > 0
    ensures var v := VerdictOf(t, r, perms, env, e);
            && (!Stops(v) <==> e in env.inUse && Passable(r, perms, e))
            && (v.Take? <==> Grantable(t, r, perms, env.(full := {}), e))
            && (v.Take? && e !in env.full <==> Grantable(t, r, perms, env, e))
            && (v.Take? ==> e !in env.inUse)
            && (Stops(v) && !v.Take? ==> v == Refuse(PCP_CANNOT_PROVIDE_EXTERNAL))
  {
    hide Accepts;
  }

  /** For instance: port 80 is in use, nothing else is, and there are no rules at all. */
  lemma PreferFailureExample(nonce: string)
    ensures var r := PcpMap("192.168.0.2", Some(0xc0a8_0002), TCP, 80, 80, 3600, nonce, true);
            var res := Mapped([], r, [], Env({80}, {}, {}, 0));
            res.code == SUCCESS && res.eport == 81
  {
    hide FirstStop, SomeBusy;
    var r := PcpMap("192.168.0.2", Some(0xc0a8_0002), TCP, 80, 80, 3600, nonce, true);
    var env := Env({80}, {}, {}, 0);
    assert VerdictAt([], r, [], env, 80, 0) == Busy;
    assert VerdictAt([], r, [], env, 80, 1) == Take;
    InstallCode([], r, env, 81);
  }

  // ---------- deletions ----------

  function Filter(t: seq<Rule>, keep: Rule -> bool): seq<Rule> {
    if t == [] then [] else (if keep(t[0]) then [t[0]] else []) + Filter(t[1..], keep)
  }

  /** NAT-PMP deletion is a filter: it succeeds exactly when no rule in question is stuck, and then
      precisely the rules in question are gone and the others are in their old order. */
  lemma {:induction false} NatPmpDeletionIsFilter(t: seq<Rule>, r: Request, env: Env)
    requires r.NatPmp?
    ensures var (t', code) := NatPmpDeleted(t, r, env);
            && (code == SUCCESS <==> forall k :: 0 <= k < |t| && ToDelete(r, t[k]) ==> t[k].eport !in env.stuck)
            && (code == SUCCESS ==> t' == Filter(t, (rule: Rule) => !ToDelete(r, rule)))
  {
    hide ToDelete;
    if t != [] {
      NatPmpDeletionIsFilter(t[1..], r, env);
      assert [] + Filter(t[1..], (rule: Rule) => !ToDelete(r, rule))
          == Filter(t[1..], (rule: Rule) => !ToDelete(r, rule));
      assert forall k :: 0 <= k < |t| ==> t[k] == if k == 0 then t[0] else t[1..][k - 1];
    }
  }

  /** A PCP deletion takes away at most the first matching rule, and exactly when its nonce agrees and
      the backend deletes it. */
  lemma PcpDeletionTakesFirst(t: seq<Rule>, r: Request, env: Env)
    requires r.PcpMap? && FindPcp(t, r) < |t|
    ensures var (i, res) := (FindPcp(t, r), PcpDeleted(t, r, env));
            if t[i].desc == r.desc && t[i].eport !in env.stuck then res == (Cut(t, i), SUCCESS)
            else res.0 == t && res.1 != SUCCESS
  {
  }

  /** After a successful deletion rules that match may be left, and they are exactly when there was a
      second one. */
  lemma PcpDeletionLeaves(t: seq<Rule>, r: Request, env: Env)
    requires r.PcpMap? && FindPcp(t, r) < |t|
    requires var rule := t[FindPcp(t, r)]; rule.desc == r.desc && rule.eport !in env.stuck
    ensures var t' := PcpDeleted(t, r, env).0;
            (exists k :: 0 <= k < |t'| && PcpMatches(r, t'[k])) <==>
            (exists i, j :: 0 <= i < j < |t| && PcpMatches(r, t[i]) && PcpMatches(r, t[j]))
  {
    hide PcpMatches, Cut;
    var i := FindPcp(t, r);
    PcpDeletionTakesFirst(t, r, env);
    CutRest(t, i, r);
    var rest := t[i + 1..];
    var f := FindPcp(rest, r);
    if f < |rest| {
      assert t[i + 1 + f] == rest[f];
      assert PcpMatches(r, t[i]) && PcpMatches(r, t[i + 1 + f]);
    } else {
      forall k | i < k < |t|
        ensures !PcpMatches(r, t[k])
      {
        assert rest[k - i - 1] == t[k];
      }
    }
  }

  /** For instance: a client with two TCP mappings asks for the deletion of all of them, that is, with
      internal port 0. */
  lemma PcpDeletionExample(nonce: string)
    ensures var a := Rule(80, TCP, "192.168.0.2", 80, nonce, 0);
            var b := Rule(81, TCP, "192.168.0.2", 81, nonce, 0);
            var r := PcpMap("192.168.0.2", Some(0xc0a8_0002), TCP, 0, 0, 0, nonce, false);
            && Unique([a, b]) && PcpMatches(r, a) && PcpMatches(r, b)
            && PcpDeleted([a, b], r, Env({}, {}, {}, 0)) == ([b], SUCCESS)
  {
    var a := Rule(80, TCP, "192.168.0.2", 80, nonce, 0);
    var b := Rule(81, TCP, "192.168.0.2", 81, nonce, 0);
    assert Cut([a, b], 0) == [b];
  }

  lemma CutRest(t: seq<Rule>, i: nat, r: Request)
    requires i < |t| && forall k :: 0 <= k < i ==> !PcpMatches(r, t[k])
    ensures (forall k :: 0 <= k < |Cut(t, i)| ==> !PcpMatches(r, Cut(t, i)[k])) <==>
      FindPcp(t[i + 1..], r) == |t| - i - 1
  {
    hide PcpMatches;
    var t', rest := Cut(t, i), t[i + 1..];
    assert forall k :: 0 <= k < i ==> t'[k] == t[k];
    assert forall k :: i <= k < |t'| ==> t'[k] == rest[k - i];
    var f := FindPcp(rest, r);
    if f < |rest| {
      assert t'[f + i] == rest[f];
    }
  }

  /** NAT-PMP reports success without the mapping that was asked for exactly when the first usable port
      carries an old mapping of the client that the backend will not delete. */
  lemma NatPmpSuccess(t: seq<Rule>, r: Request, perms: seq<Perm>, env: Env)
    requires r.NatPmp? && StartOf(r) > 0
    ensures var res := Mapped(t, r, perms, env);
            && (forall e :: FirstUsable(t, r, perms, env, e) ==>
                 && res.eport == e
                 && (res.code == SUCCESS && NewRule(r, env, e) !in res.table <==>
                     FailsToReplace(t, r, env, e) && NewRule(r, env, e) !in t)
                 && (FailsToReplace(t, r, env, e) ==> res == Result(t, SUCCESS, e)))
            && ((forall e: Port :: !Usable(t, r, perms, env, e)) ==> res.code != SUCCESS)
  {
    hide Usable, Granted, FailsToReplace, Mapped, NewRule;
    GrantsFirstUsable(t, r, perms, env);
    var res := Mapped(t, r, perms, env);
    forall e | FirstUsable(t, r, perms, env, e)
      ensures res.eport == e && res == Granted(t, r, env, e)
    {
      SameOffset(t, r, perms, env, e, res.eport);
    }
    forall e | FirstUsable(t, r, perms, env, e)
      ensures res.code == SUCCESS && NewRule(r, env, e) !in res.table <==>
              FailsToReplace(t, r, env, e) && NewRule(r, env, e) !in t
      ensures FailsToReplace(t, r, env, e) ==> res == Result(t, SUCCESS, e)
    {
      GrantedMeaning(t, r, env, e);
    }
  }

  lemma SameOffset(t: seq<Rule>, r: Request, perms: seq<Perm>, env: Env, e: Port, e': Port)
    requires StartOf(r) > 0 && FirstUsable(t, r, perms, env, e) && FirstUsable(t, r, perms, env, e')
    ensures e == e'
  {
    UsablePositive(t, r, perms, env, e);
    UsablePositive(t, r, perms, env, e');
  }

  lemma GrantedMeaning(t: seq<Rule>, r: Request, env: Env, e: Port)
    requires r.NatPmp?
    ensures var res := Granted(t, r, env, e);
            && (res.code == SUCCESS && NewRule(r, env, e) !in res.table <==>
                FailsToReplace(t, r, env, e) && NewRule(r, env, e) !in t)
            && (FailsToReplace(t, r, env, e) ==> res == Result(t, SUCCESS, e))
  {
    hide NewRule, Delete, IsPcpDesc;
    var x, rest := NewRule(r, env, e), Delete(t, e, r.proto);
    assert (rest + [x])[|rest|] == x;
  }

  /** For instance: a renewal that the backend prevents is answered with success, and the mapping keeps
      its old expiration time. */
  lemma NatPmpSuccessExample()
    ensures var old_ := Rule(80, TCP, "192.168.0.2", 80, "NAT-PMP 80 TCP", 100);
            var r := NatPmp("192.168.0.2", Some(0xc0a8_0002), TCP, 80, 80, 3600);
            var env := Env({}, {80}, {}, 50);
            && Mapped([old_], r, [], env) == Result([old_], SUCCESS, 80)
            && NewRule(r, env, 80) !in [old_]
  {
    hide FirstStop, SomeBusy;
    var old_ := Rule(80, TCP, "192.168.0.2", 80, "NAT-PMP 80 TCP", 100);
    var r := NatPmp("192.168.0.2", Some(0xc0a8_0002), TCP, 80, 80, 3600);
    var env := Env({}, {80}, {}, 50);
    assert Lookup([old_], 80, TCP) == Some(old_);
    assert old_.desc[0] == 'N';
    assert VerdictAt([old_], r, [], env, 80, 0) == Keep;
  }

  // ---------- the mapping that a successful request leaves behind ----------

  /** The mapping that was asked for: it leads to the client's port and lasts as long as was asked. */
  predicate AsRequested(rule: Rule, r: Request, env: Env, e: Port) {
    && rule.eport == e && rule.proto == r.proto && rule.iaddr == r.client && rule.iport == r.iport
    && rule.timestamp == (env.now + r.lifetime) % 0x1_0000_0000
    && rule.desc == if r.PcpMap? then r.desc else "NAT-PMP " + Decimal(e) + (if r.proto == 17 then " UDP" else " TCP")
  }

  /** A request for a mapping, as opposed to a deletion or a malformed one. */
  predicate AsksForMapping(r: Request) {
    r.lifetime > 0 && StartOf(r) > 0 && (r.NatPmp? ==> r.iport > 0)
  }

  lemma NewRuleIs(r: Request, env: Env, e: Port)
    ensures AsRequested(NewRule(r, env, e), r, env, e) && IsOwn(r, NewRule(r, env, e))
    ensures r.NatPmp? ==> IsNatPmpDesc(NewRule(r, env, e).desc) && !IsPcpDesc(NewRule(r, env, e).desc)
  {
    if r.NatPmp? {
      var d := NewRule(r, env, e).desc;
      assert d[..7] == "NAT-PMP" && d[0] == 'N';
    }
  }

  /** An installed mapping is the only one of its port and protocol, and other ports are as before. */
  lemma Installed(t: seq<Rule>, r: Request, env: Env, e: Port)
    requires Unique(t) && e !in env.full
    ensures var t' := Install(t, r, env, e).table;
            && Install(t, r, env, e).code == 0 && Install(t, r, env, e).eport == e
            && Lookup(t', e, r.proto).Some? && AsRequested(Lookup(t', e, r.proto).value, r, env, e)
            && IsOwn(r, Lookup(t', e, r.proto).value)
            && (forall rule :: rule in t' && HasKey(rule, e, r.proto) ==> rule == Lookup(t', e, r.proto).value)
            && (forall e': Port :: e' != e ==> Lookup(t', e', r.proto) == Lookup(t, e', r.proto))
  {
    hide NewRule, AsRequested, Lookup;
    var rest, x := Delete(t, e, r.proto), NewRule(r, env, e);
    NewRuleIs(r, env, e);
    NewRuleKey(r, env, e);
    DeletedKey(t, e, r.proto);
    AddedKey(rest, x, e, r.proto);
    forall e': Port | e' != e
      ensures Lookup(rest + [x], e', r.proto) == Lookup(t, e', r.proto)
    {
      DeleteOther(t, e, e', r.proto);
      AddOther(rest, x, e', r.proto);
    }
  }

  /** When the backend does not take the new mapping the old one is gone all the same. */
  lemma NotInstalled(t: seq<Rule>, r: Request, env: Env, e: Port)
    requires Unique(t) && e in env.full
    ensures var res := Install(t, r, env, e);
            && res.code == (if r.NatPmp? then 3 else 8) && res.eport == e
            && (forall rule :: rule in res.table <==> rule in t && !HasKey(rule, e, r.proto))
  {
    DeletedKey(t, e, r.proto);
    var i := Find(t, e, r.proto);
    if i < |t| {
      var rest := Cut(t, i);
      forall k | 0 <= k < |t| && k != i
        ensures t[k] in rest
      {
        assert rest[if k < i then k else k - 1] == t[k];
      }
    }
  }

  /** So a request may take away the client's mapping and put nothing in its place: this happens exactly
      when the granted port has one that can be replaced, and the backend then fails. */
  lemma MappingLost(t: seq<Rule>, r: Request, perms: seq<Perm>, env: Env, e: Port)
    requires Unique(t) && AsksForMapping(r) && (r.PcpMap? ==> !r.preferFailure)
    requires FirstUsable(t, r, perms, env, e) && !(r.NatPmp? && HasPcpMapping(t, r, e))
    requires !FailsToReplace(t, r, env, e)
    ensures var res := Served(t, r, perms, env);
            && res.eport == e && (res.code == 0 <==> e !in env.full)
            && (Lookup(res.table, e, r.proto).None? <==> e in env.full)
            && (res.code != 0 ==> res.code == (if r.NatPmp? then 3 else 8))
  {
    hide Usable, Install, Lookup, Mapped, HasPcpMapping;
    GrantsFirstUsable(t, r, perms, env);
    UsablePositiveAll(t, r, perms, env);
    OffsetsDiffer(StartOf(r), e, Served(t, r, perms, env).eport);
    if e in env.full {
      NotInstalled(t, r, env, e);
    } else {
      Installed(t, r, env, e);
    }
  }

  lemma OffsetsDiffer(start: Port, e: Port, e': Port)
    requires start > 0 && e > 0 && e' > 0
    ensures Offset(start, e) == Offset(start, e') <==> e == e'
  {
  }

  /** Requests that do not name a port they can be given. */
  lemma MalformedRequest(t: seq<Rule>, r: Request, perms: seq<Perm>, env: Env)
    requires r.lifetime > 0
    ensures r.NatPmp? && r.iport == 0 ==> Served(t, r, perms, env) == Result(t, 2, r.eport)
    ensures r.PcpMap? && r.iport == 0 && r.eport == 0 ==> Served(t, r, perms, env) == Result(t, 3, 0)
    ensures !AsksForMapping(r) <==> r.iport == 0 && (r.NatPmp? || r.eport == 0)
  {
    hide Mapped;
  }

  /** With PREFER_FAILURE a suggested port that the host does not use is granted or refused by itself. */
  lemma PreferFailureCode(t: seq<Rule>, r: Request, perms: seq<Perm>, env: Env)
    requires Unique(t) && AsksForMapping(r) && r.PcpMap? && r.preferFailure && StartOf(r) !in env.inUse
    ensures var (res, e) := (Served(t, r, perms, env), StartOf(r));
            && res.eport == e
            && (res == Result(t, 11, e) <==> !Usable(t, r, perms, env, e))
            && (Usable(t, r, perms, env, e) ==> res.code == if e in env.full then 8 else 0)
  {
    hide Install, SomeBusy, Accepts;
    var e := StartOf(r);
    assert Nth(e, 0) == e && Stops(VerdictAt(t, r, perms, env, e, 0));
    if e in env.full {
      NotInstalled(t, r, env, e);
    } else {
      Installed(t, r, env, e);
    }
  }

  lemma DeletedKey(t: seq<Rule>, e: Port, proto: int)
    requires Unique(t)
    ensures forall rule :: rule in Delete(t, e, proto) ==> !HasKey(rule, e, proto)
  {
    var i := Find(t, e, proto);
    if i < |t| {
      var rest := Cut(t, i);
      forall k | 0 <= k < |rest|
        ensures !HasKey(rest[k], e, proto)
      {
        assert rest[k] == t[if k < i then k else k + 1];
      }
    }
  }

  lemma AddedKey(rest: seq<Rule>, x: Rule, e: Port, proto: int)
    requires HasKey(x, e, proto) && forall rule :: rule in rest ==> !HasKey(rule, e, proto)
    ensures Lookup(rest + [x], e, proto) == Some(x)
    ensures forall rule :: rule in rest + [x] && HasKey(rule, e, proto) ==> rule == x
  {
    var t := rest + [x];
    assert t[|rest|] == x;
    assert forall k :: 0 <= k < |rest| ==> t[k] == rest[k] && t[k] in rest;
  }

  lemma {:induction false} FindSplit(a: seq<Rule>, b: seq<Rule>, e: Port, proto: int)
    ensures Find(a + b, e, proto) == if Find(a, e, proto) < |a| then Find(a, e, proto) else |a| + Find(b, e, proto)
  {
    if a == [] {
      assert a + b == b;
    } else {
      TailAppend(a, b);
      FindSplit(a[1..], b, e, proto);
    }
  }

  lemma LookupSplit(a: seq<Rule>, b: seq<Rule>, e: Port, proto: int)
    ensures Lookup(a + b, e, proto) == if Lookup(a, e, proto).Some? then Lookup(a, e, proto) else Lookup(b, e, proto)
  {
    hide Find;
    FindSplit(a, b, e, proto);
  }

  lemma LookupSkips(x: Rule, b: seq<Rule>, e: Port, proto: int)
    requires !HasKey(x, e, proto)
    ensures Lookup([x] + b, e, proto) == Lookup(b, e, proto) && Lookup([x], e, proto) == None
  {
    LookupSplit([x], b, e, proto);
    assert [x][0] == x;
  }

  lemma DeleteOther(t: seq<Rule>, e: Port, e': Port, proto: int)
    requires e' != e
    ensures Lookup(Delete(t, e, proto), e', proto) == Lookup(t, e', proto)
  {
    hide Lookup, Find;
    var i := Find(t, e, proto);
    if i < |t| {
      var a, x, b := t[..i], t[i], t[i + 1..];
      assert t == a + ([x] + b);
      LookupSplit(a, b, e', proto);
      LookupSplit(a, [x] + b, e', proto);
      LookupSkips(x, b, e', proto);
    }
  }

  lemma AddOther(t: seq<Rule>, x: Rule, e: Port, proto: int)
    requires !HasKey(x, e, proto)
    ensures Lookup(t + [x], e, proto) == Lookup(t, e, proto)
  {
    hide Lookup;
    LookupSplit(t, [x], e, proto);
    LookupSkips(x, [], e, proto);
    LookupNone(e, proto);
  }

  lemma LookupNone(e: Port, proto: int)
    ensures Lookup([], e, proto) == None
  {
  }

  /** After success the table has exactly one rule for the granted port, and that is the one asked for,
      unless a NAT-PMP client's old mapping could not be replaced. */
  lemma MappingInstalled(t: seq<Rule>, r: Request, perms: seq<Perm>, env: Env)
    requires Unique(t) && AsksForMapping(r) && Served(t, r, perms, env).code == SUCCESS
    requires !FailsToReplace(t, r, env, Served(t, r, perms, env).eport)
    ensures var res := Served(t, r, perms, env);
            && Lookup(res.table, res.eport, r.proto).Some?
            && AsRequested(Lookup(res.table, res.eport, r.proto).value, r, env, res.eport)
            && (forall rule :: rule in res.table && HasKey(rule, res.eport, r.proto) ==>
                  rule == Lookup(res.table, res.eport, r.proto).value)
  {
    hide VerdictOf, Install, Lookup, AsRequested, FirstStop, SomeBusy, HasPcpMapping;
    var k := FirstStop(t, r, perms, env, StartOf(r), 0);
    if k < CYCLE {
      var e := Nth(StartOf(r), k);
      var v := VerdictOf(t, r, perms, env, e);
      assert Stops(VerdictAt(t, r, perms, env, StartOf(r), k));
      KeepMeans(t, r, perms, env, e);
      InstallCode(t, r, env, e);
      if v.Take? && e !in env.full {
        Installed(t, r, env, e);
      }
    }
  }

  lemma KeepMeans(t: seq<Rule>, r: Request, perms: seq<Perm>, env: Env, e: Port)
    ensures VerdictOf(t, r, perms, env, e).Keep? ==> FailsToReplace(t, r, env, e)
    ensures var v := VerdictOf(t, r, perms, env, e); v.Refuse? ==> v.code != SUCCESS
  {
    hide Accepts;
  }

  /** The same request again, while the same ports are in use, is granted the same port. */
  lemma RepeatedRequest(t: seq<Rule>, r: Request, perms: seq<Perm>, env: Env, later: Env)
    requires Unique(t) && AsksForMapping(r) && (r.PcpMap? ==> !r.preferFailure)
    requires Served(t, r, perms, env).code == SUCCESS && !FailsToReplace(t, r, env, Served(t, r, perms, env).eport)
    requires later.inUse == env.inUse
    requires r.PcpMap? ==> later.stuck == env.stuck && Served(t, r, perms, env).eport !in later.stuck
    ensures var res := Served(t, r, perms, env); Served(res.table, r, perms, later).eport == res.eport
  {
    hide Usable, Mapped, Granted, Install, Lookup, FailsToReplace, AsRequested, SomePermitted;
    var res := Served(t, r, perms, env);
    GrantsFirstUsable(t, r, perms, env);
    GrantedInstalls(t, r, env, res.eport);
    UsablePositiveAll(t, r, perms, env);
    if exists e: Port :: Usable(t, r, perms, env, e) {
      Installed(t, r, env, res.eport);
      forall e: Port
        ensures Usable(res.table, r, perms, later, e) <==> Usable(t, r, perms, env, e)
      {
        SameUse(t, res.table, r, perms, env, later, e, res.eport);
      }
      GrantsFirstUsable(res.table, r, perms, later);
      SameOffset(res.table, r, perms, later, res.eport, Mapped(res.table, r, perms, later).eport);
    }
  }

  lemma UsablePositiveAll(t: seq<Rule>, r: Request, perms: seq<Perm>, env: Env)
    ensures forall e: Port :: Usable(t, r, perms, env, e) ==> e > 0
  {
  }

  lemma GrantedInstalls(t: seq<Rule>, r: Request, env: Env, e: Port)
    ensures !FailsToReplace(t, r, env, e) && Granted(t, r, env, e).code == SUCCESS ==>
      Granted(t, r, env, e) == Install(t, r, env, e) && e !in env.full
  {
    InstallCode(t, r, env, e);
  }

  lemma SameUse(t: seq<Rule>, t': seq<Rule>, r: Request, perms: seq<Perm>, env: Env, later: Env, e: Port, granted: Port)
    requires later.inUse == env.inUse && Usable(t, r, perms, env, granted)
    requires r.PcpMap? ==> later.stuck == env.stuck && granted !in later.stuck
    requires Lookup(t', granted, r.proto).Some? && IsOwn(r, Lookup(t', granted, r.proto).value)
    requires e != granted ==> Lookup(t', e, r.proto) == Lookup(t, e, r.proto)
    ensures Usable(t', r, perms, later, e) <==> Usable(t, r, perms, env, e)
  {
    hide Accepts, Lookup;
  }

  // ---------- what requests leave alone ----------

  lemma {:induction false} FilterConcat(a: seq<Rule>, b: seq<Rule>, keep: Rule -> bool)
    ensures Filter(a + b, keep) == Filter(a, keep) + Filter(b, keep)
  {
    if a == [] {
      assert a + b == b;
    } else {
      TailAppend(a, b);
      FilterConcat(a[1..], b, keep);
      Assoc(if keep(a[0]) then [a[0]] else [], Filter(a[1..], keep), Filter(b, keep));
    }
  }

  lemma FilterOne(x: Rule, keep: Rule -> bool)
    ensures Filter([x], keep) == if keep(x) then [x] else []
  {
    assert [x][1..] == [];
  }

  lemma FilterCut(t: seq<Rule>, i: nat, keep: Rule -> bool)
    requires i < |t| && !keep(t[i])
    ensures Filter(Cut(t, i), keep) == Filter(t, keep)
  {
    hide Filter;
    var a, x, c := t[..i], t[i], t[i + 1..];
    FilterConcat(a, c, keep);
    FilterConcat([x], c, keep);
    FilterConcat(a, [x] + c, keep);
    FilterOne(x, keep);
    assert a + ([x] + c) == t;
    assert [] + Filter(c, keep) == Filter(c, keep);
  }

  lemma FilterSnoc(t: seq<Rule>, x: Rule, keep: Rule -> bool)
    requires !keep(x)
    ensures Filter(t + [x], keep) == Filter(t, keep)
  {
    FilterConcat(t, [x], keep);
    FilterOne(x, keep);
  }

  /** A kind of rule that the request neither owns nor creates. */
  ghost predicate Untouched(r: Request, keep: Rule -> bool) {
    && (forall rule: Rule :: rule.iaddr == r.client && (r.NatPmp? ==> !IsPcpDesc(rule.desc)) ==> !keep(rule))
  }

  /** A class of rules without the client's own of the same protocol and internal port. */
  ghost predicate Spared(r: Request, keep: Rule -> bool) {
    forall rule: Rule ::
      (rule.iaddr == r.client && rule.iport == r.iport && rule.proto == r.proto
       && (r.NatPmp? ==> !IsPcpDesc(rule.desc))) ==> !keep(rule)
  }

  lemma MappingKeeps(t: seq<Rule>, r: Request, perms: seq<Perm>, env: Env, keep: Rule -> bool)
    requires StartOf(r) > 0 && Spared(r, keep)
    ensures Filter(Mapped(t, r, perms, env).table, keep) == Filter(t, keep)
  {
    hide Filter, VerdictOf, SomeBusy, FirstStop, Ended, Spared;
    var k := FirstStop(t, r, perms, env, StartOf(r), 0);
    if k < CYCLE {
      assert Stops(VerdictAt(t, r, perms, env, StartOf(r), k));
      EndedKeeps(t, r, perms, env, Nth(StartOf(r), k), keep);
    }
  }

  lemma EndedKeeps(t: seq<Rule>, r: Request, perms: seq<Perm>, env: Env, e: Port, keep: Rule -> bool)
    requires Spared(r, keep)
    ensures Filter(Ended(t, r, env, e, VerdictOf(t, r, perms, env, e)).table, keep) == Filter(t, keep)
      || !Stops(VerdictOf(t, r, perms, env, e))
  {
    hide Filter, VerdictOf, Install, Spared;
    if VerdictOf(t, r, perms, env, e).Take? {
      InstallKeeps(t, r, perms, env, e, keep);
    }
  }

  lemma InstallKeeps(t: seq<Rule>, r: Request, perms: seq<Perm>, env: Env, e: Port, keep: Rule -> bool)
    requires Spared(r, keep) && VerdictOf(t, r, perms, env, e).Take?
    ensures Filter(Install(t, r, env, e).table, keep) == Filter(t, keep)
  {
    hide Filter, DescOf, IsPcpDesc, VerdictOf, NewRule, Cut;
    TakesOwn(t, r, perms, env, e);
    var i := Find(t, e, r.proto);
    if i < |t| {
      FilterCut(t, i, keep);
    }
    OwnDesc(r, e);
    NewRuleKey(r, env, e);
    FilterSnoc(Delete(t, e, r.proto), NewRule(r, env, e), keep);
  }

  lemma TakesOwn(t: seq<Rule>, r: Request, perms: seq<Perm>, env: Env, e: Port)
    requires VerdictOf(t, r, perms, env, e).Take?
    ensures var i := Find(t, e, r.proto);
            i < |t| ==> IsOwn(r, t[i]) && (r.NatPmp? ==> !IsPcpDesc(t[i].desc))
  {
    hide Permitted, IsPcpDesc;
  }

  lemma OwnDesc(r: Request, e: Port)
    ensures r.NatPmp? ==> !IsPcpDesc(DescOf(r, e))
  {
    if r.NatPmp? {
      assert DescOf(r, e)[0] == 'N';
    }
  }

  lemma {:induction false} NatPmpDeletionKeeps(t: seq<Rule>, r: Request, env: Env, keep: Rule -> bool)
    requires r.NatPmp? && Untouched(r, keep)
    ensures Filter(NatPmpDeleted(t, r, env).0, keep) == Filter(t, keep)
  {
    if t != [] {
      hide IsPcpDesc, IsNatPmpDesc;
      NatPmpDeletionKeeps(t[1..], r, env, keep);
      var rest := NatPmpDeleted(t[1..], r, env).0;
      if !ToDelete(r, t[0]) {
        FilterConcat([t[0]], rest, keep);
        FilterConcat([t[0]], t[1..], keep);
        assert [t[0]] + t[1..] == t;
      } else if t[0].eport !in env.stuck {
        DescsDiffer(t[0].desc);
        FilterCut(t, 0, keep);
        assert Cut(t, 0) == t[1..];
      }
    }
  }

  lemma DescsDiffer(desc: string)
    ensures !(IsPcpDesc(desc) && IsNatPmpDesc(desc))
  {
    assert IsPcpDesc(desc) ==> |desc| > 0 && desc[0] == 'P';
    assert IsNatPmpDesc(desc) ==> |desc| > 0 && desc[0] == 'N';
  }

  /** Rules of a kind that the request neither owns nor creates keep their contents and their order. */
  lemma ServedKeeps(t: seq<Rule>, r: Request, perms: seq<Perm>, env: Env, keep: Rule -> bool)
    requires Untouched(r, keep)
    ensures Filter(Served(t, r, perms, env).table, keep) == Filter(t, keep)
  {
    hide Filter, Mapped, NatPmpDeleted;
    if r.lifetime == 0 {
      if r.NatPmp? {
        NatPmpDeletionKeeps(t, r, env, keep);
      } else {
        var i := FindPcp(t, r);
        if i < |t| {
          assert t[i].iaddr == r.client;
          FilterCut(t, i, keep);
        }
      }
    } else if StartOf(r) > 0 {
      MappingKeeps(t, r, perms, env, keep);
    }
  }

  // ---------- uniqueness ----------

  /** A request for a mapping touches no rules but those that lead to the same internal port of the same
      client by the same protocol. */
  lemma OwnRulesOnly(t: seq<Rule>, r: Request, perms: seq<Perm>, env: Env)
    requires AsksForMapping(r)
    ensures var others := (rule: Rule) => !(rule.iaddr == r.client && rule.iport == r.iport && rule.proto == r.proto);
            Filter(Served(t, r, perms, env).table, others) == Filter(t, others)
  {
    hide Filter, Mapped;
    var others := (rule: Rule) => !(rule.iaddr == r.client && rule.iport == r.iport && rule.proto == r.proto);
    MappingKeeps(t, r, perms, env, others);
  }

  /** Which rules a NAT-PMP deletion takes away, in the words of section 3.4 of RFC 6886: the client's own
      of the protocol, of one internal port or, for port 0, of all.  It ends with an error at the first of
      them that the backend does not delete. */
  lemma NatPmpDeletionMeaning(t: seq<Rule>, r: Request, perms: seq<Perm>, env: Env, i: nat)
    requires r.NatPmp? && r.lifetime == 0 && i <= |t|
    requires forall k :: 0 <= k < i && t[k].eport in env.stuck ==> !MeantByNatPmp(r, t[k])
    requires i < |t| ==> t[i].eport in env.stuck && MeantByNatPmp(r, t[i])
    ensures Served(t, r, perms, env)
         == Result(Filter(t[..i], (rule: Rule) => !MeantByNatPmp(r, rule)) + t[i..], if i < |t| then 2 else 0, 0)
  {
    hide Filter, NatPmpDeleted;
    DeletedUpTo(t, r, env, i, (rule: Rule) => !MeantByNatPmp(r, rule));
  }

  predicate MeantByNatPmp(r: Request, rule: Rule) {
    && rule.iaddr == r.client && "NAT-PMP" <= rule.desc && rule.proto == r.proto
    && (r.iport == 0 || r.iport == rule.iport)
  }

  lemma {:induction false} DeletedUpTo(t: seq<Rule>, r: Request, env: Env, i: nat, keep: Rule -> bool)
    requires r.NatPmp? && i <= |t| && forall rule: Rule :: keep(rule) <==> !MeantByNatPmp(r, rule)
    requires forall k :: 0 <= k < i && t[k].eport in env.stuck ==> keep(t[k])
    requires i < |t| ==> t[i].eport in env.stuck && !keep(t[i])
    ensures NatPmpDeleted(t, r, env) == (Filter(t[..i], keep) + t[i..], if i < |t| then 2 else 0)
  {
    hide Filter, MeantByNatPmp, IsNatPmpDesc;
    if t != [] {
      assert MeantByNatPmp(r, t[0]) <==> ToDelete(r, t[0]) by {
        MeantIs(r, t[0]);
      }
    }
    if i > 0 {
      DeletedUpTo(t[1..], r, env, i - 1, keep);
      assert t[1..][..i - 1] == t[1..i] && t[1..][i - 1..] == t[i..] && t[..i] == [t[0]] + t[1..i];
      FilterConcat([t[0]], t[1..i], keep);
      FilterOne(t[0], keep);
      assert [] + Filter(t[1..i], keep) == Filter(t[1..i], keep);
      Assoc([t[0]], Filter(t[1..i], keep), t[i..]);
    } else {
      assert t[..i] == [] && t[i..] == t;
      NothingKept(keep);
      assert [] + t == t;
    }
  }

  lemma MeantIs(r: Request, rule: Rule)
    ensures MeantByNatPmp(r, rule) <==> ToDelete(r, rule)
  {
  }

  lemma NothingKept(keep: Rule -> bool)
    ensures Filter([], keep) == []
  {
  }

  /** Which rule a PCP deletion is about: the first of the client's of the protocol, of one internal port
      or, for port 0, of any. */
  lemma PcpDeletionMeaning(t: seq<Rule>, r: Request, perms: seq<Perm>, env: Env, i: nat)
    requires r.PcpMap? && r.lifetime == 0 && i <= |t|
    requires i < |t| ==> MeantByPcp(r, t[i])
    requires forall k :: 0 <= k < i ==> !MeantByPcp(r, t[k])
    ensures Served(t, r, perms, env)
         == if i == |t| then Result(t, 0, r.eport)
            else if t[i].desc != r.desc then Result(t, 2, r.eport)
            else if t[i].eport in env.stuck then Result(t, 8, r.eport)
            else Result(t[..i] + t[i + 1..], 0, r.eport)
  {
    hide FindPcp;
    if i < |t| {
      assert PcpMatches(r, t[i]);
    }
    assert forall k :: 0 <= k < i ==> PcpMatches(r, t[k]) == MeantByPcp(r, t[k]);
  }

  predicate MeantByPcp(r: Request, rule: Rule) {
    rule.iaddr == r.client && rule.proto == r.proto && (rule.iport == r.iport || r.iport == 0)
  }

  lemma InstallUnique(t: seq<Rule>, r: Request, env: Env, e: Port)
    requires Unique(t)
    ensures Unique(Install(t, r, env, e).table)
  {
    hide DescOf;
    var i := Find(t, e, r.proto);
    var rest := Delete(t, e, r.proto);
    if i < |t| {
      CutUnique(t, i);
      assert forall k :: 0 <= k < |rest| ==> rest[k] == t[if k < i then k else k + 1];
      forall k | 0 <= k < |rest|
        ensures !HasKey(rest[k], e, r.proto)
      {
        if k >= i {
          assert !HasKey(t[i], t[k + 1].eport, t[k + 1].proto);
        }
      }
    }
    NewRuleKey(r, env, e);
  }

  lemma {:induction false} NatPmpDeletionUnique(t: seq<Rule>, r: Request, env: Env)
    requires Unique(t)
    ensures var t' := NatPmpDeleted(t, r, env).0;
            Unique(t') && forall x :: x in t' ==> x in t
  {
    hide ToDelete;
    if t != [] {
      assert Unique(t[1..]);
      NatPmpDeletionUnique(t[1..], r, env);
      var rest := NatPmpDeleted(t[1..], r, env).0;
      forall k | 0 <= k < |rest|
        ensures !HasKey(t[0], rest[k].eport, rest[k].proto)
      {
        assert rest[k] in t[1..];
      }
    }
  }

  lemma ServedUnique(t: seq<Rule>, r: Request, perms: seq<Perm>, env: Env)
    requires Unique(t)
    ensures Unique(Served(t, r, perms, env).table)
  {
    hide Unique, VerdictOf, Install, NatPmpDeleted, Cut, PcpMatches;
    if r.lifetime == 0 {
      if r.NatPmp? {
        NatPmpDeletionUnique(t, r, env);
      } else {
        var i := FindPcp(t, r);
        if i < |t| {
          CutUnique(t, i);
        }
      }
    } else if StartOf(r) > 0 {
      var k := FirstStop(t, r, perms, env, StartOf(r), 0);
      InstallUnique(t, r, env, Nth(StartOf(r), k));
    }
  }

  // ---------- runs ----------

  datatype Event = Event(request: Request, perms: seq<Perm>, env: Env)

  ghost function Run(t: seq<Rule>, es: seq<Event>): seq<Rule>
    decreases |es|
  {
    if es == [] then t else Run(Served(t, es[0].request, es[0].perms, es[0].env).table, es[1..])
  }

  /** Over any run of requests external port and protocol identify a mapping. */
  lemma {:induction false} RunUnique(t: seq<Rule>, es: seq<Event>)
    requires Unique(t)
    ensures Unique(Run(t, es))
    decreases |es|
  {
    if es != [] {
      ServedUnique(t, es[0].request, es[0].perms, es[0].env);
      RunUnique(Served(t, es[0].request, es[0].perms, es[0].env).table, es[1..]);
    }
  }

  lemma {:induction false} RunKeeps(t: seq<Rule>, es: seq<Event>, keep: Rule -> bool)
    requires forall k :: 0 <= k < |es| ==> Untouched(es[k].request, keep)
    ensures Filter(Run(t, es), keep) == Filter(t, keep)
    decreases |es|
  {
    hide Filter, Served, Untouched;
    if es != [] {
      ServedKeeps(t, es[0].request, es[0].perms, es[0].env, keep);
      RunKeeps(Served(t, es[0].request, es[0].perms, es[0].env).table, es[1..], keep);
    }
  }

  /** The mappings of an internal address that makes no request survive any run unchanged. */
  lemma OthersSurvive(t: seq<Rule>, es: seq<Event>, owner: string)
    requires forall k :: 0 <= k < |es| ==> es[k].request.client != owner
    ensures Filter(Run(t, es), (rule: Rule) => rule.iaddr == owner) == Filter(t, (rule: Rule) => rule.iaddr == owner)
  {
    RunKeeps(t, es, (rule: Rule) => rule.iaddr == owner);
  }

  /** Mappings made through PCP survive any run of NAT-PMP requests unchanged. */
  lemma PcpSurvivesNatPmp(t: seq<Rule>, es: seq<Event>)
    requires forall k :: 0 <= k < |es| ==> es[k].request.NatPmp?
    ensures Filter(Run(t, es), (rule: Rule) => IsPcpDesc(rule.desc)) == Filter(t, (rule: Rule) => IsPcpDesc(rule.desc))
  {
    RunKeeps(t, es, (rule: Rule) => IsPcpDesc(rule.desc));
  }
}
