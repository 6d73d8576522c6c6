/** The 7-bit length code of the minissdpd protocol: the unrolled encoder and the guarded decoder
    of codelength.h, and the loop encoder of the Python client. */
module CodeLength {
  import opened SeqTools

  type Byte = x: int | 0 <= x < 256

  const WORD: nat := 0x1_0000_0000     // values are 32-bit unsigned
  const GUARD: nat := 0x200_0000       // 1 << 25

  /** CODELENGTH: `(n >> s) | 0x80`, stored in a byte, keeps seven bits of n and sets the top bit. */
  function Encode(n: nat): (r: seq<Byte>)
    requires n < WORD
    ensures 1 <= |r| <= 5
    ensures n < 16384 ==> |r| <= 2
  {
    (if n >= 0x1000_0000 then [128 + n / 0x1000_0000 % 128] else []) +
    (if n >= 0x20_0000 then [128 + n / 0x20_0000 % 128] else []) +
    (if n >= 0x4000 then [128 + n / 0x4000 % 128] else []) +
    (if n >= 0x80 then [128 + n / 0x80 % 128] else []) +
    [n % 128]
  }

  /** What the decoders compute from position p on, after having read the value acc. */
  function DecodeFrom(b: seq<Byte>, p: nat, acc: nat): (r: (nat, nat))
    requires p <= |b| && acc < GUARD
    ensures r.0 < WORD && p <= r.1 <= |b|
    ensures p < |b| ==> p < r.1
    decreases |b| - p
  {
    if p == |b| then (acc, p)
    else
      var n := acc * 128 + b[p] % 128;
      if b[p] >= 128 && n < GUARD then DecodeFrom(b, p + 1, n) else (n, p + 1)
  }

  /** DECODELENGTH_CHECKLIMIT: every intermediate value fits in 32 bits. */
  method DecodeLength(b: seq<Byte>, start: nat) returns (n: nat, p: nat)
    requires start <= |b|
    ensures (n, p) == DecodeFrom(b, start, 0)
  {
    n, p := 0, start;
    while true
      invariant p <= |b| && n < GUARD
      invariant DecodeFrom(b, p, n) == DecodeFrom(b, start, 0)
      decreases |b| - p
    {
      if p >= |b| {
        return;
      }
      var c := b[p];
      assert n * 128 + c % 128 < WORD;
      n := (n * 128 + c % 128) % WORD;
      p := p + 1;
      if !(c >= 128 && n < GUARD) {
        return;
      }
    }
  }

  /** The continuation bytes of the loop encoder. */
  function Continued(l: nat): seq<Byte> {
    if l <= 127 then [128 + l] else Continued(l / 128) + [128 + l % 128]
  }

  function LoopEncode(l: nat): seq<Byte> {
    if l <= 127 then [l] else Continued(l / 128) + [l % 128]
  }

  /** A string with its length in front. */
  function Coded(s: seq<Byte>): seq<Byte> {
    LoopEncode(|s|) + s
  }

  /** The Python codelength(): the length prefix is built from its last byte backwards. */
  method PrependLength(s: seq<Byte>) returns (r: seq<Byte>)
    ensures r == Coded(s)
  {
    var l := |s|;
    if l == 0 {
      return [0];
    }
    var encodedlen: seq<Byte> := [l % 128];
    ghost var tail := encodedlen;
    while l > 127
      invariant l > 127 ==> LoopEncode(|s|) == Continued(l / 128) + encodedlen
      invariant l <= 127 ==> LoopEncode(|s|) == encodedlen
    {
      l := l / 128;
      var c: Byte := l % 128 + 128;
      if l > 127 {
        assert Continued(l) + encodedlen == Continued(l / 128) + ([c] + encodedlen);
      }
      encodedlen := [c] + encodedlen;
    }
    r := encodedlen + s;
  }

  lemma ReadByte(b: seq<Byte>, p: nat, acc: nat, c: Byte)
    requires acc < GUARD && At(b, p, [c])
    ensures p < |b| && b[p] == c
    ensures var n := acc * 128 + c % 128;
            DecodeFrom(b, p, acc) == if c >= 128 && n < GUARD then DecodeFrom(b, p + 1, n) else (n, p + 1)
  {
    assert b[p..p + 1][0] == c;
  }

  /** Continuation bytes are read without reaching the guard. */
  lemma {:induction false} ReadContinued(b: seq<Byte>, p: nat, l: nat)
    requires l < GUARD && At(b, p, Continued(l))
    ensures DecodeFrom(b, p, 0) == DecodeFrom(b, p + |Continued(l)|, l)
  {
    hide At, Continued, DecodeFrom;
    ContinuedNext(l);
    var c: Byte := 128 + l % 128;
    if l <= 127 {
      ReadByte(b, p, 0, c);
    } else {
      AtSplit(b, p, Continued(l / 128), [c]);
      ReadContinued(b, p, l / 128);
      ReadByte(b, p + |Continued(l / 128)|, l / 128, c);
    }
  }

  /** Decoding what the loop encoder wrote. */
  lemma DecodeLoop(b: seq<Byte>, p: nat, n: nat)
    requires n < WORD && At(b, p, LoopEncode(n))
    ensures DecodeFrom(b, p, 0) == (n, p + |LoopEncode(n)|)
  {
    hide At, Continued, DecodeFrom;
    var c: Byte := n % 128;
    if n <= 127 {
      ReadByte(b, p, 0, c);
    } else {
      AtSplit(b, p, Continued(n / 128), [c]);
      ReadContinued(b, p, n / 128);
      ReadByte(b, p + |Continued(n / 128)|, n / 128, c);
    }
  }

  lemma DivDiv(n: nat)
    ensures n / 128 / 128 == n / 0x4000 && n / 0x4000 / 128 == n / 0x20_0000 && n / 0x20_0000 / 128 == n / 0x1000_0000
  {
  }

  /** The unrolled encoder and the loop encoder produce the same bytes. */
  lemma EncodersAgree(n: nat)
    requires n < WORD
    ensures Encode(n) == LoopEncode(n)
  {
    hide Continued;
    DivDiv(n);
    var a, b, c, d := n / 0x80, n / 0x4000, n / 0x20_0000, n / 0x1000_0000;
    ContinuedNext(a);
    ContinuedNext(b);
    ContinuedNext(c);
    ContinuedNext(d);
    var w, x, y, z: Byte := n % 128, 128 + a % 128, 128 + b % 128, 128 + c % 128;
    if n < 0x80 {
      assert Encode(n) == [w];
    } else if n < 0x4000 {
      assert Encode(n) == [x] + [w];
    } else if n < 0x20_0000 {
      assert Encode(n) == [y] + [x] + [w];
    } else if n < 0x1000_0000 {
      assert Encode(n) == [z] + [y] + [x] + [w];
    } else {
      assert Encode(n) == [128 + d] + [z] + [y] + [x] + [w];
    }
  }

  lemma ContinuedNext(l: nat)
    ensures Continued(l) == if l <= 127 then [128 + l] else Continued(l / 128) + [128 + l % 128]
  {
  }

  /** Round trip: decoding the code of n yields n and stops right behind it. */
  lemma DecodeEncode(b: seq<Byte>, p: nat, n: nat)
    requires n < WORD && At(b, p, Encode(n))
    ensures DecodeFrom(b, p, 0) == (n, p + |Encode(n)|)
  {
    EncodersAgree(n);
    DecodeLoop(b, p, n);
  }

  /** A string with its length in front, as the C code writes it. */
  function Prefixed(s: seq<Byte>): seq<Byte>
    requires |s| < WORD
  {
    Encode(|s|) + s
  }

  lemma CodedIsPrefixed(s: seq<Byte>)
    requires |s| < WORD
    ensures Coded(s) == Prefixed(s)
  {
    EncodersAgree(|s|);
  }

  lemma ReadPrefixed(b: seq<Byte>, p: nat, s: seq<Byte>)
    requires |s| < WORD && At(b, p, Prefixed(s))
    ensures var (l, q) := DecodeFrom(b, p, 0);
            l == |s| && q == p + |Encode(|s|)| && q + l <= |b| && b[q..q + l] == s
  {
    AtSplit(b, p, Encode(|s|), s);
    DecodeEncode(b, p, |s|);
  }
}
