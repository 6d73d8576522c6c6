/** UPnP permission rules: the forward first-match check of one external port, and the bitmap of all
    permitted external ports. */
module Permissions {
  type Port = x: int | 0 <= x < 65536

  datatype PermType = Allow | Deny

  datatype Perm = Perm(kind: PermType, eportMin: Port, eportMax: Port,
                       address: bv32, mask: bv32, iportMin: Port, iportMax: Port)

  /** match_permission, without a regular expression */
  predicate Matches(perm: Perm, eport: Port, address: bv32, iport: Port) {
    && perm.eportMin <= eport <= perm.eportMax
    && MatchesInside(perm, address, iport)
  }

  predicate MatchesInside(perm: Perm, address: bv32, iport: Port) {
    && perm.iportMin <= iport <= perm.iportMax
    && Both(address, perm.mask) == Both(perm.address, perm.mask)
  }

  /** The bits that two words share. */
  function Both(x: bv32, m: bv32): bv32 {
    x & m
  }

  /** What the rule list says about one external port: the first match decides, and no match accepts. */
  predicate Accepts(perms: seq<Perm>, eport: Port, address: bv32, iport: Port) {
    if perms == [] then true
    else if Matches(perms[0], eport, address, iport) then perms[0].kind == Allow
    else Accepts(perms[1..], eport, address, iport)
  }

  ghost predicate FirstMatch(perms: seq<Perm>, i: int, eport: Port, address: bv32, iport: Port) {
    && 0 <= i < |perms| && Matches(perms[i], eport, address, iport)
    && forall k :: 0 <= k < i ==> !Matches(perms[k], eport, address, iport)
  }

  /** Deny exactly when a first matching rule exists and is a deny rule. */
  lemma {:induction false} AcceptsByFirstMatch(perms: seq<Perm>, eport: Port, address: bv32, iport: Port)
    ensures Accepts(perms, eport, address, iport)
       <==> forall i :: FirstMatch(perms, i, eport, address, iport) ==> perms[i].kind == Allow
  {
    if perms != [] {
      AcceptsByFirstMatch(perms[1..], eport, address, iport);
      if Matches(perms[0], eport, address, iport) {
        assert FirstMatch(perms, 0, eport, address, iport);
      } else {
        forall i
          ensures FirstMatch(perms, i, eport, address, iport) <==> FirstMatch(perms[1..], i - 1, eport, address, iport)
        {
          FirstMatchTail(perms, i, eport, address, iport);
        }
        forall i | FirstMatch(perms[1..], i, eport, address, iport)
          ensures FirstMatch(perms, i + 1, eport, address, iport)
        {
          FirstMatchTail(perms, i + 1, eport, address, iport);
        }
      }
    }
  }

  lemma FirstMatchTail(perms: seq<Perm>, i: int, eport: Port, address: bv32, iport: Port)
    requires perms != [] && !Matches(perms[0], eport, address, iport)
    ensures FirstMatch(perms, i, eport, address, iport) <==> FirstMatch(perms[1..], i - 1, eport, address, iport)
  {
    hide Matches;
    var tail := perms[1..];
    if FirstMatch(tail, i - 1, eport, address, iport) {
      forall k | 0 <= k < i
        ensures !Matches(perms[k], eport, address, iport)
      {
        if k > 0 {
          assert perms[k] == tail[k - 1];
        }
      }
    }
  }

  /** check_upnp_rule_against_permissions */
  method CheckRule(perms: seq<Perm>, eport: Port, address: bv32, iport: Port) returns (accepted: bool)
    ensures accepted == Accepts(perms, eport, address, iport)
  {
    hide Matches;
    var i := 0;
    while i < |perms|
      invariant i <= |perms|
      invariant Accepts(perms[i..], eport, address, iport) == Accepts(perms, eport, address, iport)
    {
      assert perms[i..][1..] == perms[i + 1..];
      if Matches(perms[i], eport, address, iport) {
        return perms[i].kind == Allow;
      }
      i := i + 1;
    }
    return true;
  }

  // ---------- words and bits ----------

  function Mask(k: nat): bv32
    requires k < 32
  {
    1 << k
  }

  /** A word has a bit of the mask. */
  predicate Has(w: bv32, mask: bv32) {
    w & mask != 0
  }

  function With(w: bv32, mask: bv32, on: bool): bv32 {
    if on then w | mask else w & !mask
  }

  predicate Disjoint(a: bv32, b: bv32) {
    a & b == 0
  }

  predicate NonZero(a: bv32) {
    a != 0
  }

  predicate TestBit(w: bv32, k: nat)
    requires k < 32
  {
    Has(w, Mask(k))
  }

  lemma MaskBits(k: nat, m: nat)
    requires k < 32 && m < 32
    ensures Mask(k) != 0
    ensures k != m ==> Mask(k) & Mask(m) == 0
  {
  }

  lemma Masks(k: nat, m: nat)
    requires k < 32 && m < 32
    ensures NonZero(Mask(k))
    ensures k != m ==> Disjoint(Mask(k), Mask(m))
    ensures Mask(k) == Mask(m) <==> k == m
  {
    MaskBits(k, m);
  }

  lemma OrOther(w: bv32, a: bv32, b: bv32)
    requires Disjoint(a, b)
    ensures With(w, a, true) & b == w & b
  {
  }

  lemma AndNotOther(w: bv32, a: bv32, b: bv32)
    requires Disjoint(a, b)
    ensures With(w, a, false) & b == w & b
  {
  }

  lemma SameMask(w: bv32, a: bv32)
    requires NonZero(a)
    ensures Has(With(w, a, true), a) && !Has(With(w, a, false), a)
  {
  }

  lemma OtherMask(w: bv32, a: bv32, b: bv32, on: bool)
    requires Disjoint(a, b)
    ensures Has(With(w, a, on), b) == Has(w, b)
  {
    hide With, Disjoint;
    if on {
      OrOther(w, a, b);
    } else {
      AndNotOther(w, a, b);
    }
  }

  /** Setting or clearing a bit changes that bit and no other. */
  lemma OneBit(w: bv32, k: nat, on: bool, m: nat)
    requires k < 32 && m < 32
    ensures TestBit(With(w, Mask(k), on), m) == if m == k then on else TestBit(w, m)
  {
    hide Mask, Has, With, Disjoint, NonZero;
    Masks(k, m);
    if m == k {
      SameMask(w, Mask(k));
    } else {
      OtherMask(w, Mask(k), Mask(m), on);
    }
  }

  lemma FullAndEmpty(a: bv32)
    requires NonZero(a)
    ensures Has(0xffff_ffff, a) && !Has(0, a)
  {
  }

  lemma WholeWord(m: nat)
    requires m < 32
    ensures TestBit(0xffff_ffff, m) && !TestBit(0, m)
  {
    hide Mask, Has, NonZero;
    Masks(m, m);
    FullAndEmpty(Mask(m));
  }

  // ---------- the bitmap ----------

  predicate PortBit(allowed: array<bv32>, e: Port)
    requires allowed.Length == 2048
    reads allowed
  {
    TestBit(allowed[e / 32], e % 32)
  }

  /** The loop over one rule's external ports, in words where possible and in bits elsewhere. */
  method ApplyRule(allowed: array<bv32>, lo: Port, hi: Port, on: bool)
    requires allowed.Length == 2048
    modifies allowed
    ensures forall e: Port :: PortBit(allowed, e) == if lo <= e <= hi then on else old(PortBit(allowed, e))
  {
    hide TestBit, With, Mask;
    var j: nat := lo;
    while j <= hi
      invariant lo <= j && (j <= hi + 1 || j == lo)
      invariant forall e: Port :: PortBit(allowed, e) == if lo <= e < j then on else old(PortBit(allowed, e))
      decreases hi + 1 - j
    {
      if j % 32 == 0 && hi >= j + 31 {
        SetWord(allowed, j, on);
        j := j + 32;
      } else {
        ghost var from := j;
        SetOne(allowed, j, on);
        j := j + 1;
        while j % 32 != 0 && j <= hi
          invariant from < j <= hi + 1
          invariant forall e: Port :: PortBit(allowed, e) == if lo <= e < j then on else old(PortBit(allowed, e))
          decreases hi + 1 - j
        {
          SetOne(allowed, j, on);
          j := j + 1;
        }
      }
    }
  }

  method SetWord(allowed: array<bv32>, j: nat, on: bool)
    requires allowed.Length == 2048 && j % 32 == 0 && j + 31 < 65536
    modifies allowed
    ensures forall e: Port :: PortBit(allowed, e) == if j <= e < j + 32 then on else old(PortBit(allowed, e))
  {
    hide TestBit;
    allowed[j / 32] := if on then 0xffff_ffff else 0;
    forall e: Port
      ensures PortBit(allowed, e) == if j <= e < j + 32 then on else old(PortBit(allowed, e))
    {
      WholeWord(e % 32);
    }
  }

  method SetOne(allowed: array<bv32>, j: Port, on: bool)
    requires allowed.Length == 2048
    modifies allowed
    ensures forall e: Port :: PortBit(allowed, e) == if e == j then on else old(PortBit(allowed, e))
  {
    hide TestBit, With, Mask;
    ghost var w := allowed[j / 32];
    allowed[j / 32] := With(allowed[j / 32], Mask(j % 32), on);
    forall e: Port
      ensures PortBit(allowed, e) == if e == j then on else old(PortBit(allowed, e))
    {
      OneBit(w, j % 32, on, e % 32);
    }
  }

  /** get_permitted_ext_ports: going through the rules backwards, later writes win, so that bit e of the
      bitmap is what the forward check says about external port e. */
  method GetPermittedExtPorts(allowed: array<bv32>, perms: seq<Perm>, addr: bv32, iport: Port)
    requires allowed.Length == 2048
    modifies allowed
    ensures forall e: Port :: PortBit(allowed, e) <==> Accepts(perms, e, addr, iport)
  {
    hide TestBit;
    forall k | 0 <= k < allowed.Length {
      allowed[k] := 0xffff_ffff;
    }
    forall e: Port
      ensures PortBit(allowed, e)
    {
      WholeWord(e % 32);
    }
    var i := |perms|;
    assert perms[i..] == [];
    while i > 0
      invariant 0 <= i <= |perms|
      invariant forall e: Port :: PortBit(allowed, e) <==> Accepts(perms[i..], e, addr, iport)
    {
      i := i - 1;
      var perm := perms[i];
      assert perms[i..][0] == perm && perms[i..][1..] == perms[i + 1..];
      if MatchesInside(perm, addr, iport) {
        ApplyRule(allowed, perm.eportMin, perm.eportMax, perm.kind == Allow);
      }
    }
    assert perms[i..] == perms;
  }

  // ---------- what the address of a rule means ----------

  predicate Same(x: bv32, y: bv32, mask: bv32) {
    Has(x, mask) == Has(y, mask)
  }

  predicate SameBit(x: bv32, y: bv32, k: nat)
    requires k < 32
  {
    Same(x, y, Mask(k))
  }

  lemma AllMasks(x: bv32, y: bv32)
    requires Same(x, y, 0x1) && Same(x, y, 0x2) && Same(x, y, 0x4) && Same(x, y, 0x8)
    requires Same(x, y, 0x10) && Same(x, y, 0x20) && Same(x, y, 0x40) && Same(x, y, 0x80)
    requires Same(x, y, 0x100) && Same(x, y, 0x200) && Same(x, y, 0x400) && Same(x, y, 0x800)
    requires Same(x, y, 0x1000) && Same(x, y, 0x2000) && Same(x, y, 0x4000) && Same(x, y, 0x8000)
    requires Same(x, y, 0x10000) && Same(x, y, 0x20000) && Same(x, y, 0x40000) && Same(x, y, 0x80000)
    requires Same(x, y, 0x100000) && Same(x, y, 0x200000) && Same(x, y, 0x400000) && Same(x, y, 0x800000)
    requires Same(x, y, 0x1000000) && Same(x, y, 0x2000000) && Same(x, y, 0x4000000) && Same(x, y, 0x8000000)
    requires Same(x, y, 0x10000000) && Same(x, y, 0x20000000) && Same(x, y, 0x40000000) && Same(x, y, 0x80000000)
    ensures x == y
  {
  }

  lemma MaskValues()
    ensures Mask(0) == 0x1 && Mask(1) == 0x2 && Mask(2) == 0x4 && Mask(3) == 0x8
    ensures Mask(4) == 0x10 && Mask(5) == 0x20 && Mask(6) == 0x40 && Mask(7) == 0x80
    ensures Mask(8) == 0x100 && Mask(9) == 0x200 && Mask(10) == 0x400 && Mask(11) == 0x800
    ensures Mask(12) == 0x1000 && Mask(13) == 0x2000 && Mask(14) == 0x4000 && Mask(15) == 0x8000
    ensures Mask(16) == 0x10000 && Mask(17) == 0x20000 && Mask(18) == 0x40000 && Mask(19) == 0x80000
    ensures Mask(20) == 0x100000 && Mask(21) == 0x200000 && Mask(22) == 0x400000 && Mask(23) == 0x800000
    ensures Mask(24) == 0x1000000 && Mask(25) == 0x2000000 && Mask(26) == 0x4000000 && Mask(27) == 0x8000000
    ensures Mask(28) == 0x10000000 && Mask(29) == 0x20000000 && Mask(30) == 0x40000000 && Mask(31) == 0x80000000
  {
  }

  /** Two words agree if all their bits do. */
  lemma AllBits(x: bv32, y: bv32)
    requires forall k: nat :: k < 32 ==> SameBit(x, y, k)
    ensures x == y
  {
    hide Same, Mask;
    MaskValues();
    assert SameBit(x, y, 0) && SameBit(x, y, 1) && SameBit(x, y, 2) && SameBit(x, y, 3);
    assert SameBit(x, y, 4) && SameBit(x, y, 5) && SameBit(x, y, 6) && SameBit(x, y, 7);
    assert SameBit(x, y, 8) && SameBit(x, y, 9) && SameBit(x, y, 10) && SameBit(x, y, 11);
    assert SameBit(x, y, 12) && SameBit(x, y, 13) && SameBit(x, y, 14) && SameBit(x, y, 15);
    assert SameBit(x, y, 16) && SameBit(x, y, 17) && SameBit(x, y, 18) && SameBit(x, y, 19);
    assert SameBit(x, y, 20) && SameBit(x, y, 21) && SameBit(x, y, 22) && SameBit(x, y, 23);
    assert SameBit(x, y, 24) && SameBit(x, y, 25) && SameBit(x, y, 26) && SameBit(x, y, 27);
    assert SameBit(x, y, 28) && SameBit(x, y, 29) && SameBit(x, y, 30) && SameBit(x, y, 31);
    AllMasks(x, y);
  }

  lemma SameBitIs(x: bv32, y: bv32, k: nat)
    requires k < 32
    ensures SameBit(x, y, k) <==> TestBit(x, k) == TestBit(y, k)
  {
  }

  lemma ZeroOrAll(x: bv32, k: nat)
    requires k < 32
    ensures Both(x, Mask(k)) == 0 || Both(x, Mask(k)) == Mask(k)
  {
  }

  lemma BothAssoc(x: bv32, m: bv32, b: bv32)
    ensures Both(Both(x, m), b) == Both(x, Both(m, b))
  {
  }

  lemma BothSwap(x: bv32, m: bv32)
    ensures Both(x, m) == Both(m, x)
  {
  }

  lemma BothZero(x: bv32)
    ensures Both(x, 0) == 0
  {
  }

  lemma BothAll(x: bv32, m: bv32, b: bv32)
    requires Both(x, b) == b && Both(m, b) == b
    ensures Both(Both(x, m), b) == b
  {
    hide Both;
    BothAssoc(x, m, b);
  }

  lemma BothNone(x: bv32, m: bv32, b: bv32)
    requires Both(x, b) == 0 || Both(m, b) == 0
    ensures Both(Both(x, m), b) == 0
  {
    hide Both;
    BothAssoc(x, m, b);
    BothSwap(x, m);
    BothAssoc(m, x, b);
    BothZero(x);
    BothZero(m);
  }

  lemma HasIs(x: bv32, b: bv32)
    ensures Has(x, b) <==> Both(x, b) != 0
  {
  }

  lemma BothMask(x: bv32, m: bv32, k: nat)
    requires k < 32
    ensures Has(Both(x, m), Mask(k)) <==> Has(x, Mask(k)) && Has(m, Mask(k))
  {
    hide Has, Both, Mask;
    var b := Mask(k);
    HasIs(x, b);
    HasIs(m, b);
    HasIs(Both(x, m), b);
    ZeroOrAll(x, k);
    ZeroOrAll(m, k);
    MaskBits(k, k);
    if Both(x, b) == 0 || Both(m, b) == 0 {
      BothNone(x, m, b);
    } else {
      BothAll(x, m, b);
    }
  }

  lemma BothBit(x: bv32, m: bv32, k: nat)
    requires k < 32
    ensures TestBit(Both(x, m), k) <==> TestBit(x, k) && TestBit(m, k)
  {
    hide Has, Both, Mask;
    BothMask(x, m, k);
  }

  lemma InsideIs(perm: Perm, address: bv32, iport: Port)
    ensures MatchesInside(perm, address, iport) <==>
      perm.iportMin <= iport <= perm.iportMax && Both(address, perm.mask) == Both(perm.address, perm.mask)
  {
    hide Both;
  }

  /** A rule matches exactly the addresses that agree with its own in the bits of the mask. */
  lemma MaskedAddress(perm: Perm, address: bv32, iport: Port)
    ensures MatchesInside(perm, address, iport) <==>
      && perm.iportMin <= iport <= perm.iportMax
      && forall k: nat :: k < 32 && TestBit(perm.mask, k) ==> TestBit(address, k) == TestBit(perm.address, k)
  {
    hide TestBit, SameBit, MatchesInside, Both;
    InsideIs(perm, address, iport);
    var x, y := Both(address, perm.mask), Both(perm.address, perm.mask);
    forall k: nat | k < 32
      ensures TestBit(x, k) <==> TestBit(address, k) && TestBit(perm.mask, k)
      ensures TestBit(y, k) <==> TestBit(perm.address, k) && TestBit(perm.mask, k)
    {
      BothBit(address, perm.mask, k);
      BothBit(perm.address, perm.mask, k);
    }
    if forall k: nat :: k < 32 && TestBit(perm.mask, k) ==> TestBit(address, k) == TestBit(perm.address, k) {
      forall k: nat | k < 32
        ensures SameBit(x, y, k)
      {
        SameBitIs(x, y, k);
      }
      AllBits(x, y);
    }
  }

  /** The same with the ports. */
  lemma MatchMeans(perm: Perm, eport: Port, address: bv32, iport: Port)
    ensures Matches(perm, eport, address, iport) <==>
      && perm.eportMin <= eport <= perm.eportMax && perm.iportMin <= iport <= perm.iportMax
      && forall k: nat :: k < 32 && TestBit(perm.mask, k) ==> TestBit(address, k) == TestBit(perm.address, k)
  {
    hide TestBit, MatchesInside;
    MaskedAddress(perm, address, iport);
  }

  /** With a mask of n leading ones these are the first n bits. */
  lemma NetworkAddress(perm: Perm, n: nat, address: bv32, iport: Port)
    requires n <= 32 && forall k: nat :: k < 32 ==> (TestBit(perm.mask, k) <==> k >= 32 - n)
    ensures MatchesInside(perm, address, iport) <==>
      && perm.iportMin <= iport <= perm.iportMax
      && forall k: nat :: 32 - n <= k < 32 ==> TestBit(address, k) == TestBit(perm.address, k)
  {
    hide TestBit, MatchesInside;
    MaskedAddress(perm, address, iport);
  }
}
