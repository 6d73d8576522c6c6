/** Facts about sequences that loops and list inductions share. */
module SeqTools {

  lemma Assoc<T>(a: seq<T>, b: seq<T>, c: seq<T>)
    ensures (a + b) + c == a + (b + c)
  {
  }

  /** `done` has been produced and `rest` is still to come. */
  ghost predicate Splits<T>(whole: seq<T>, done: seq<T>, rest: seq<T>) {
    whole == done + rest
  }

  lemma SplitsStart<T>(whole: seq<T>)
    ensures Splits(whole, [], whole)
  {
  }

  lemma SplitsIs<T>(whole: seq<T>, done: seq<T>, rest: seq<T>)
    ensures Splits(whole, done, rest) <==> whole == done + rest
  {
  }

  lemma SplitsStep<T>(whole: seq<T>, done: seq<T>, x: T, rest: seq<T>)
    requires Splits(whole, done, [x] + rest)
    ensures Splits(whole, done + [x], rest)
  {
  }

  lemma SplitsMove<T>(whole: seq<T>, done: seq<T>, part: seq<T>, rest: seq<T>)
    requires Splits(whole, done, part + rest)
    ensures Splits(whole, done + part, rest)
  {
  }

  lemma SplitsEnd<T>(whole: seq<T>, done: seq<T>)
    requires Splits(whole, done, [])
    ensures whole == done
  {
  }

  lemma ConsAppend<T>(x: T, a: seq<T>, b: seq<T>)
    ensures ([x] + a)[0] == x && ([x] + a)[1..] == a
    ensures ([x] + a) + b == [x] + (a + b)
  {
  }

  lemma TailAppend<T>(a: seq<T>, b: seq<T>)
    requires a != []
    ensures (a + b)[0] == a[0] && (a + b)[1..] == a[1..] + b
  {
  }

  lemma DropNext<T>(s: seq<T>, i: nat)
    requires i < |s|
    ensures s[i..][0] == s[i] && s[i..][1..] == s[i + 1..] && s[i..] != []
  {
  }

  /** s without its element i. */
  function Cut<T>(s: seq<T>, i: nat): seq<T>
    requires i < |s|
  {
    s[..i] + s[i + 1..]
  }

  /** s occurs in b at position p. */
  predicate At<T(==)>(b: seq<T>, p: nat, s: seq<T>) {
    p + |s| <= |b| && b[p..p + |s|] == s
  }

  lemma AtSplit<T>(b: seq<T>, p: nat, s: seq<T>, t: seq<T>)
    requires At(b, p, s + t)
    ensures At(b, p, s) && At(b, p + |s|, t)
  {
    assert (s + t)[..|s|] == s && (s + t)[|s|..] == t;
    assert b[p..p + |s + t|][..|s|] == b[p..p + |s|];
    assert b[p..p + |s + t|][|s|..] == b[p + |s|..p + |s| + |t|];
  }

  lemma AtIs<T>(b: seq<T>, p: nat, s: seq<T>)
    ensures At(b, p, s) <==> p + |s| <= |b| && b[p..p + |s|] == s
  {
  }

  /** A number as printf writes it. */
  function Decimal(n: nat): string {
    (if n < 10 then "" else Decimal(n / 10)) + ["0123456789"[n % 10]]
  }

  lemma {:induction false} DecimalDigits(n: nat)
    ensures forall k :: 0 <= k < |Decimal(n)| ==> Decimal(n)[k] in "0123456789"
  {
    if n >= 10 {
      DecimalDigits(n / 10);
    }
  }

  function DigitValue(c: char): nat {
    if '0' <= c <= '9' then c as int - '0' as int else 0
  }

  /** The value of a decimal number. */
  function Number(s: string): nat {
    if s == "" then 0 else Number(s[..|s| - 1]) * 10 + DigitValue(s[|s| - 1])
  }

  lemma DigitOf(k: nat)
    requires k < 10
    ensures DigitValue("0123456789"[k]) == k
  {
  }

  lemma {:induction false} NumberOfDecimal(n: nat)
    ensures Number(Decimal(n)) == n
  {
    hide DigitValue;
    var s, front := Decimal(n), if n < 10 then "" else Decimal(n / 10);
    assert s[..|s| - 1] == front && s[|s| - 1] == "0123456789"[n % 10];
    DigitOf(n % 10);
    if n >= 10 {
      NumberOfDecimal(n / 10);
    }
  }

  /** The parts of s between the characters c. */
  function Parts(s: string, c: char): (r: seq<string>)
    ensures |r| > 0
  {
    if s == "" then [""]
    else
      var rest := Parts(s[1..], c);
      if s[0] == c then [""] + rest else [[s[0]] + rest[0]] + rest[1..]
  }

  lemma {:induction false} PartsNext(a: string, c: char, rest: string)
    requires forall k :: 0 <= k < |a| ==> a[k] != c
    ensures Parts(a + ([c] + rest), c) == [a] + Parts(rest, c)
  {
    var s := a + ([c] + rest);
    if a == "" {
      assert s == [c] + rest && s[1..] == rest;
    } else {
      assert s[0] == a[0] && s[1..] == a[1..] + ([c] + rest);
      PartsNext(a[1..], c, rest);
      assert [a[0]] + a[1..] == a;
    }
  }

  lemma {:induction false} PartsLast(a: string, c: char)
    requires forall k :: 0 <= k < |a| ==> a[k] != c
    ensures Parts(a, c) == [a]
  {
    if a != "" {
      PartsLast(a[1..], c);
      assert [a[0]] + a[1..] == a;
    }
  }
}
