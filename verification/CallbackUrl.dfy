/** The callback URL of a subscription: how upnp_event_notify_connect takes it apart. */
module CallbackUrl {
  import opened SeqTools

  const ADDRESS_SIZE: nat := 48   // sizeof(addrstr), with IPv6
  const PORT_SIZE: nat := 8       // sizeof(portstr)

  /** Address and port as text, the port number, and where the path begins. */
  datatype Target = Target(address: string, portText: string, port: nat, offset: nat)

  const HTTP := "http://"

  /** A C string: behind its last character there is a zero. */
  function CharAt(s: string, p: nat): char {
    if p < |s| then s[p] else '\0'
  }

  predicate EndsHost(c: char, ipv6: bool) {
    c == '\0' || (if ipv6 then c == ']' else c == '/' || c == ':')
  }

  /** Where the address ends if at most `room` characters can be stored. */
  function HostEnd(s: string, p: nat, room: nat, ipv6: bool): (e: nat)
    requires p <= |s|
    ensures p <= e <= |s| && e <= p + room
    ensures forall k :: p <= k < e ==> !EndsHost(s[k], ipv6)
    ensures e < p + room ==> EndsHost(CharAt(s, e), ipv6)
    decreases |s| - p
  {
    if room == 0 || EndsHost(CharAt(s, p), ipv6) then p else HostEnd(s, p + 1, room - 1, ipv6)
  }

  predicate IsDigit(c: char) {
    '0' <= c <= '9'
  }

  function DigitsEnd(s: string, p: nat): (e: nat)
    requires p <= |s|
    ensures p <= e <= |s| && !IsDigit(CharAt(s, e))
    ensures forall k :: p <= k < e ==> IsDigit(s[k])
    decreases |s| - p
  {
    if IsDigit(CharAt(s, p)) then DigitsEnd(s, p + 1) else p
  }

  /** One more digit in a 16-bit variable. */
  function Shifted(acc: nat, c: char): nat
    requires IsDigit(c)
  {
    (acc * 10 + (c as int - '0' as int)) % 65536
  }

  /** The value of digits in a 16-bit variable that starts with acc. */
  function Value(digits: string, acc: nat): nat
    requires forall k :: 0 <= k < |digits| ==> IsDigit(digits[k])
  {
    if digits == "" then acc else Value(digits[1..], Shifted(acc, digits[0]))
  }

  function Prefix(s: string, n: nat): string {
    if |s| <= n then s else s[..n]
  }

  /** Where the host ends, and its text. */
  function Host(url: string): (r: (nat, string))
    requires HTTP <= url
    ensures |HTTP| <= r.0 <= |url| && |r.1| < ADDRESS_SIZE
  {
    if CharAt(url, 7) == '[' then
      var e := HostEnd(url, 8, ADDRESS_SIZE - 2, true);
      (if CharAt(url, e) == ']' then e + 1 else e,
       "[" + url[8..e] + if 1 + (e - 8) < ADDRESS_SIZE - 1 then "]" else "")
    else
      var e := HostEnd(url, 7, ADDRESS_SIZE - 1, false);
      (e, url[7..e])
  }

  function Parse(url: string): (t: Target)
    requires HTTP <= url
    ensures t.offset <= |url| && |t.address| < 48 && |t.portText| < 8 && t.port < 65536
  {
    var (p, address) := Host(url);
    if CharAt(url, p) == ':' then
      var e := DigitsEnd(url, p + 1);
      var digits := url[p + 1..e];
      ValueFits(digits, 0);
      Target(address, ":" + Prefix(digits, 6), Value(digits, 0), e)
    else Target(address, "", 80, p)
  }

  lemma ValueFits(digits: string, acc: nat)
    requires acc < 65536 && forall k :: 0 <= k < |digits| ==> IsDigit(digits[k])
    ensures Value(digits, acc) < 65536
  {
  }

  predicate Lacks(s: string, c: char) {
    forall k :: 0 <= k < |s| ==> s[k] != c
  }

  /** Address and port text hold no characters of their own but brackets and a colon. */
  lemma TargetLacks(url: string, c: char)
    requires HTTP <= url && Lacks(url, c) && c != '[' && c != ']' && c != ':'
    ensures var t := Parse(url); Lacks(t.address + t.portText, c) && Lacks(url[t.offset..], c)
  {
    hide HostEnd, DigitsEnd, Value;
    var (p, address) := Host(url);
    assert Lacks(address, c);
    if CharAt(url, p) == ':' {
      var digits := url[p + 1..DigitsEnd(url, p + 1)];
      assert Lacks(digits, c) && Lacks(Prefix(digits, 6), c);
    }
  }

  /** The loop that copies the address. */
  method CopyHost(url: string, start: nat, room: nat, ipv6: bool) returns (p: nat, text: string)
    requires start <= |url|
    ensures p == HostEnd(url, start, room, ipv6) && text == url[start..p]
  {
    p, text := start, "";
    while !EndsHost(CharAt(url, p), ipv6) && |text| < room
      invariant start <= p <= |url| && p - start <= room && text == url[start..p]
      invariant HostEnd(url, p, room - (p - start), ipv6) == HostEnd(url, start, room, ipv6)
      decreases |url| - p
    {
      text, p := text + [url[p]], p + 1;
    }
  }

  method CopyPort(url: string, start: nat) returns (p: nat, text: string, port: nat)
    requires start <= |url|
    ensures p == DigitsEnd(url, start) && text == ":" + Prefix(url[start..p], 6) && port == Value(url[start..p], 0)
  {
    hide Copied;
    p, text, port := start, ":", 0;
    CopyStart(url, start);
    while IsDigit(CharAt(url, p))
      invariant start <= p <= |url| && Copied(url, start, p, text, port)
      decreases |url| - p
    {
      CopyStep(url, start, p, text, port);
      port := Shifted(port, url[p]);
      if |text| < 7 {
        text := text + [url[p]];
      }
      p := p + 1;
    }
    CopyEnd(url, start, p, text, port);
  }

  /** The digits from start to p have been read. */
  ghost predicate Copied(url: string, start: nat, p: nat, text: string, port: nat)
    requires start <= p <= |url|
  {
    && p <= DigitsEnd(url, start) == DigitsEnd(url, p)
    && text == ":" + Prefix(url[start..p], 6) && port == Value(url[start..p], 0)
  }

  lemma CopyStart(url: string, start: nat)
    requires start <= |url|
    ensures Copied(url, start, start, ":", 0)
  {
    assert url[start..start] == "" && ":" + "" == ":";
  }

  lemma CopyStep(url: string, start: nat, p: nat, text: string, port: nat)
    requires start <= p <= |url| && Copied(url, start, p, text, port) && IsDigit(CharAt(url, p))
    ensures p < |url|
    ensures Copied(url, start, p + 1, if |text| < 7 then text + [url[p]] else text, Shifted(port, url[p]))
  {
    hide Value, Prefix, DigitsEnd, Shifted;
    DigitsNext(url, p);
    var done := url[start..p];
    assert url[start..p + 1] == done + [url[p]];
    ValueSnoc(done, url[p], 0);
    PrefixSnoc(done, url[p]);
    if |text| < 7 {
      Assoc(":", Prefix(done, 6), [url[p]]);
    }
  }

  lemma CopyEnd(url: string, start: nat, p: nat, text: string, port: nat)
    requires start <= p <= |url| && Copied(url, start, p, text, port) && !IsDigit(CharAt(url, p))
    ensures p == DigitsEnd(url, start) && text == ":" + Prefix(url[start..p], 6) && port == Value(url[start..p], 0)
  {
    DigitsNext(url, p);
  }

  lemma DigitsNext(s: string, p: nat)
    requires p <= |s|
    ensures DigitsEnd(s, p) == if IsDigit(CharAt(s, p)) then DigitsEnd(s, p + 1) else p
  {
  }

  lemma NoDigits(acc: nat)
    ensures Value("", acc) == acc
  {
  }

  lemma ValueNext(digits: string, acc: nat)
    requires digits != "" && forall k :: 0 <= k < |digits| ==> IsDigit(digits[k])
    ensures Value(digits, acc) == Value(digits[1..], Shifted(acc, digits[0]))
  {
  }

  lemma PrefixSnoc(s: string, c: char)
    ensures Prefix("", 6) == "" && |Prefix(s, 6)| == if |s| < 6 then |s| else 6
    ensures Prefix(s + [c], 6) == if |s| < 6 then Prefix(s, 6) + [c] else Prefix(s, 6)
  {
  }

  /** The parsing part of upnp_event_notify_connect. */
  method ParseUrl(url: string) returns (t: Target)
    requires HTTP <= url
    ensures t == Parse(url)
  {
    hide HostEnd, DigitsEnd, Value;
    var p, address;
    if CharAt(url, 7) == '[' {
      p, address := CopyHost(url, 8, ADDRESS_SIZE - 2, true);
      address := "[" + address;
      if CharAt(url, p) == ']' {
        p := p + 1;
      }
      if |address| < ADDRESS_SIZE - 1 {
        address := address + "]";
      } else {
        assert address == address + "";
      }
    } else {
      p, address := CopyHost(url, 7, ADDRESS_SIZE - 1, false);
    }
    if CharAt(url, p) == ':' {
      var e, text, port := CopyPort(url, p + 1);
      return Target(address, text, port, e);
    } else {
      return Target(address, "", 80, p);
    }
  }

  // ---------- a URL that is put together is taken apart ----------

  ghost predicate PlainHost(h: string) {
    h != "" && |h| < 48 && h[0] != '[' && forall k :: 0 <= k < |h| ==> !EndsHost(h[k], false)
  }

  ghost predicate PlainPath(p: string) {
    p == "" || p[0] == '/'
  }

  lemma {:induction false} HostEndIs(s: string, p: nat, room: nat, e: nat, ipv6: bool)
    requires p <= e <= |s| && e - p <= room && EndsHost(CharAt(s, e), ipv6)
    requires forall k :: p <= k < e ==> !EndsHost(s[k], ipv6)
    ensures HostEnd(s, p, room, ipv6) == e
    decreases e - p
  {
    if p < e {
      HostEndIs(s, p + 1, room - 1, e, ipv6);
    }
  }

  lemma {:induction false} ValueSnoc(digits: string, d: char, acc: nat)
    requires IsDigit(d) && forall k :: 0 <= k < |digits| ==> IsDigit(digits[k])
    ensures Value(digits + [d], acc) == Shifted(Value(digits, acc), d)
  {
    hide Shifted;
    if digits == "" {
      assert (digits + [d])[1..] == "";
    } else {
      TailAppend(digits, [d]);
      ValueSnoc(digits[1..], d, Shifted(acc, digits[0]));
    }
  }

  lemma DigitChar(k: nat)
    requires k < 10
    ensures var d := "0123456789"[k]; IsDigit(d) && d as int - '0' as int == k
  {
  }

  lemma DecimalNext(n: nat)
    ensures Decimal(n) == if n < 10 then ["0123456789"[n]] else Decimal(n / 10) + ["0123456789"[n % 10]]
  {
  }

  lemma {:induction false} DecimalValue(n: nat)
    requires n < 65536
    ensures forall k :: 0 <= k < |Decimal(n)| ==> IsDigit(Decimal(n)[k])
    ensures Value(Decimal(n), 0) == n
  {
    hide Decimal, Value;
    var d := "0123456789"[n % 10];
    DigitChar(n % 10);
    DecimalNext(n);
    if n >= 10 {
      DecimalValue(n / 10);
      ValueSnoc(Decimal(n / 10), d, 0);
    } else {
      assert [d][1..] == "";
      ValueNext([d], 0);
      NoDigits(n);
    }
  }

  lemma DecimalShort(n: nat)
    requires n < 65536
    ensures |Decimal(n)| <= 5
  {
    assert n / 10 < 6554 && n / 10 / 10 < 656 && n / 10 / 10 / 10 < 66 && n / 10 / 10 / 10 / 10 < 7;
    assert |Decimal(n / 10 / 10 / 10 / 10)| == 1;
    assert |Decimal(n / 10 / 10 / 10)| <= 2;
    assert |Decimal(n / 10 / 10)| <= 3;
    assert |Decimal(n / 10)| <= 4;
  }

  /** Host, port and path of a URL are recovered; without a port it is 80.  Whatever follows the digits of
      a port belongs to the path. */
  lemma PlainUrl(host: string, port: nat, path: string, rest: string)
    requires PlainHost(host) && PlainPath(path) && port < 65536 && (rest != "" ==> !('0' <= rest[0] <= '9'))
    ensures var url := "http://" + host + ":" + Decimal(port) + rest;
            && HTTP <= url && Parse(url) == Target(host, ":" + Decimal(port), port, 8 + |host| + |Decimal(port)|)
            && url[8 + |host| + |Decimal(port)|..] == rest
    ensures var url := "http://" + host + path;
            HTTP <= url && Parse(url) == Target(host, "", 80, 7 + |host|) && url[7 + |host|..] == path
  {
    hide Decimal, Value, Parse;
    var with, without := HTTP + host + ":" + Decimal(port) + rest, HTTP + host + path;
    var e := 7 + |host|;
    assert with[..7] == HTTP && with[7..e] == host && with[e] == ':';
    HostAt(with, host, e);
    PortBehind(with, host, port, rest);
    assert without[..7] == HTTP && without[7..e] == host && without[e..] == path;
    HostAt(without, host, e);
    NoPort(without, host, path);
  }

  lemma NoPort(url: string, host: string, path: string)
    requires url == HTTP + host + path && HTTP <= url && Host(url) == (7 + |host|, host) && PlainPath(path)
    ensures Parse(url) == Target(host, "", 80, 7 + |host|)
  {
    var e := 7 + |host|;
    assert url[e..] == path;
    assert e < |url| ==> url[e] == path[0];
  }

  lemma PortBehind(url: string, host: string, port: nat, path: string)
    requires url == HTTP + host + ":" + Decimal(port) + path && HTTP <= url && Host(url) == (7 + |host|, host)
    requires port < 65536 && (path != "" ==> !IsDigit(path[0]))
    ensures Parse(url) == Target(host, ":" + Decimal(port), port, 8 + |host| + |Decimal(port)|)
    ensures url[8 + |host| + |Decimal(port)|..] == path
  {
    hide Decimal, Value, Host;
    var digits := Decimal(port);
    var e := 7 + |host|;
    var q := e + 1 + |digits|;
    DecimalValue(port);
    DecimalShort(port);
    assert url[e] == ':' && url[e + 1..q] == digits && url[q..] == path;
    assert forall k :: e + 1 <= k < q ==> url[k] == digits[k - e - 1];
    assert q < |url| ==> url[q] == path[0];
    DigitsEndIs(url, e + 1, q);
  }

  /** An IPv6 address between brackets. */
  ghost predicate PlainAddress(h: string) {
    |h| <= 45 && forall k :: 0 <= k < |h| ==> !EndsHost(h[k], true)
  }

  /** The same for an IPv6 address. */
  lemma BracketedUrl(address: string, port: nat, path: string)
    requires PlainAddress(address) && PlainPath(path) && port < 65536
    ensures var host := "[" + address + "]";
            var url := HTTP + host + ":" + Decimal(port) + path;
            HTTP <= url && Parse(url) == Target(host, ":" + Decimal(port), port, 8 + |host| + |Decimal(port)|)
    ensures var host := "[" + address + "]";
            HTTP <= HTTP + host + path && Parse(HTTP + host + path) == Target(host, "", 80, 7 + |host|)
  {
    hide Decimal, Value, Parse;
    var host := "[" + address + "]";
    var url := HTTP + host + ":" + Decimal(port) + path;
    assert HTTP + host + ":" + Decimal(port) + path == HTTP + host + (":" + Decimal(port) + path);
    AddressAt(address, ":" + Decimal(port) + path);
    PortBehind(url, host, port, path);
    AddressAt(address, path);
    NoPort(HTTP + host + path, host, path);
  }

  lemma AddressAt(address: string, rest: string)
    requires PlainAddress(address)
    ensures var host := "[" + address + "]";
            HTTP <= HTTP + host + rest && Host(HTTP + host + rest) == (7 + |host|, host)
  {
    var host := "[" + address + "]";
    var url, e := HTTP + host + rest, 8 + |address|;
    assert url[..7] == HTTP && url[7] == '[' && url[8..e] == address && url[e] == ']';
    assert forall k :: 8 <= k < e ==> url[k] == address[k - 8];
    HostEndIs(url, 8, ADDRESS_SIZE - 2, e, true);
  }

  lemma HostAt(url: string, host: string, e: nat)
    requires PlainHost(host) && HTTP <= url && e == 7 + |host| <= |url| && url[7..e] == host
    requires EndsHost(CharAt(url, e), false)
    ensures Host(url) == (e, host)
  {
    forall k | 7 <= k < e
      ensures !EndsHost(url[k], false)
    {
      assert url[k] == host[k - 7];
    }
    assert url[7] == host[0];
    HostEndIs(url, 7, ADDRESS_SIZE - 1, e, false);
  }

  lemma {:induction false} DigitsEndIs(s: string, p: nat, e: nat)
    requires p <= e <= |s| && !IsDigit(CharAt(s, e))
    requires forall k :: p <= k < e ==> IsDigit(s[k])
    ensures DigitsEnd(s, p) == e
    decreases e - p
  {
    if p < e {
      DigitsEndIs(s, p + 1, e);
    }
  }
}
