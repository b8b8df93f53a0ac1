/** The address part of a Listen: the IPv4 check that stands in for
    `socket.inet_pton(AF_INET, ip)`, the port range, the constructor's validation
    chain and the `ip:port` address text. */
module Addresses {
  import opened PyValues
  import opened Text

  /** One dotted-quad group as glibc's inet_pton reads it: one to three decimal
      digits, no leading zero, value at most 255. */
  predicate IsOctet(p: string)
  {
    1 <= |p| <= 3 && Canonical(p) && DigitsValue(p) <= 255
  }

  /** `inet_pton(AF_INET, ip)` succeeds: exactly four groups separated by dots. */
  predicate IsIPv4(ip: string)
  {
    var parts := Split(ip, '.');
    |parts| == 4 && forall i :: 0 <= i < 4 ==> IsOctet(parts[i])
  }

  /** The dotted-quad text of four numbers. */
  function Dotted(a: nat, b: nat, c: nat, d: nat): string
  {
    Join([DecimalText(a), DecimalText(b), DecimalText(c), DecimalText(d)], '.')
  }

  lemma JoinFour(p: seq<string>)
    requires |p| == 4
    ensures Join(p, '.') == p[0] + "." + p[1] + "." + p[2] + "." + p[3]
  {
    assert Join(p[2..], '.') == p[2] + "." + p[3] by {
      assert p[2..][1..] == [p[3]];
    }
    assert Join(p[1..], '.') == p[1] + "." + Join(p[2..], '.') by {
      assert p[1..][1..] == p[2..];
    }
  }

  /** Every quadruple of bytes prints as an address the check accepts. */
  lemma DottedIsIPv4(a: nat, b: nat, c: nat, d: nat)
    requires a <= 255 && b <= 255 && c <= 255 && d <= 255
    ensures IsIPv4(Dotted(a, b, c, d))
  {
    var p := [DecimalText(a), DecimalText(b), DecimalText(c), DecimalText(d)];
    forall i | 0 <= i < 4 ensures '.' !in p[i] && IsOctet(p[i]) {
      var n := [a, b, c, d][i];
      assert p[i] == DecimalText(n);
      DecimalTextValue(n);
      ShortDecimal(n);
      assert !IsDigit('.');
    }
    SplitJoin(p, '.');
  }

  /** Every accepted address is the dotted-quad text of its four group values. */
  lemma IPv4IsDotted(ip: string)
    requires IsIPv4(ip)
    ensures var p := Split(ip, '.');
      ip == Dotted(DigitsValue(p[0]), DigitsValue(p[1]), DigitsValue(p[2]), DigitsValue(p[3]))
  {
    var p := Split(ip, '.');
    JoinSplit(ip, '.');
    forall i | 0 <= i < 4 ensures DecimalText(DigitsValue(p[i])) == p[i] {
      CanonicalRoundTrip(p[i]);
    }
    assert p == [DecimalText(DigitsValue(p[0])), DecimalText(DigitsValue(p[1])),
                 DecimalText(DigitsValue(p[2])), DecimalText(DigitsValue(p[3]))];
  }

  /** An accepted address contains only digits and dots, so never a colon. */
  lemma IPv4Chars(ip: string)
    requires IsIPv4(ip)
    ensures forall i :: 0 <= i < |ip| ==> ip[i] == '.' || IsDigit(ip[i])
    ensures ':' !in ip
  {
    DigitPieces(ip, '.');
  }

  /** The concrete addresses the source's tests use. */
  lemma IPv4Zero()
    ensures IsIPv4("0.0.0.0")
  {
    DottedIsIPv4(0, 0, 0, 0);
    JoinFour(["0", "0", "0", "0"]);
    assert Dotted(0, 0, 0, 0) == "0.0.0.0";
  }

  lemma IPv4OneTwoThreeFour()
    ensures IsIPv4("1.2.3.4")
  {
    DottedIsIPv4(1, 2, 3, 4);
    JoinFour(["1", "2", "3", "4"]);
    assert Dotted(1, 2, 3, 4) == "1.2.3.4";
  }

  lemma IPv4Nines()
    ensures !IsIPv4("999.999.999.999")
  {
    var p := ["999", "999", "999", "999"];
    JoinFour(p);
    assert Join(p, '.') == "999.999.999.999";
    SplitJoin(p, '.');
    assert "999"[..2] == "99" && "99"[..1] == "9";
    assert DigitsValue("999") == 999;
    assert !IsOctet(p[0]);
  }

  lemma IPv4HighGroup()
    ensures !IsIPv4("10.11.12.256")
  {
    var p := ["10", "11", "12", "256"];
    JoinFour(p);
    assert Join(p, '.') == "10.11.12.256";
    SplitJoin(p, '.');
    assert "256"[..2] == "25" && "25"[..1] == "2";
    assert DigitsValue("256") == 256;
    assert !IsOctet(p[3]);
  }

  /** The port exactly as the Listen stores it: an int, or the digit string taken
      from a signature. */
  datatype Port = IntPort(n: int) | TextPort(s: string)

  /** `int(port)`. */
  function PortNumber(p: Port): Option<int>
  {
    match p
    case IntPort(n) => Some(n)
    case TextPort(s) => ParseInt(s)
  }

  /** `"%s" % port`. */
  function PortText(p: Port): string
  {
    match p
    case IntPort(n) => IntText(n)
    case TextPort(s) => s
  }

  predicate InPortRange(n: int) { 1 <= n <= 65535 }

  /** The port of a constructed Listen parses to a number in 1..65535. */
  predicate PortOk(p: Port)
  {
    PortNumber(p).Some? && InPortRange(PortNumber(p).value)
  }

  function PortOf(v: Value): Port
    requires v.Int? || v.Str?
  {
    if v.Int? then IntPort(v.i) else TextPort(v.s)
  }

  /** The validation chain of `Listen.__init__` (with `__is_valid_ipv4_address`).
      The port's type is checked first, then the ip, then the port's value. */
  function CheckListen(ip: Value, port: Value): (st: Status)
    ensures st == Pass <==> (port.Int? || port.Str?) && ip.Str? && IsIPv4(ip.s) && PortOk(PortOf(port))
    ensures st == Raised(TypeError) <==> !(port.Int? || port.Str?) || (!ip.Null? && !ip.Str?)
    ensures st.Raised? && st.error != TypeError ==> st.error == ValueError
  {
    if !(port.Str? || port.Int?) then Raised(TypeError)
    else if ip.Null? then Raised(ValueError)
    else if !ip.Str? then Raised(TypeError)
    else if !IsIPv4(ip.s) then Raised(ValueError)
    else if !PortOk(PortOf(port)) then Raised(ValueError)
    else Pass
  }

  /** ip used when the keyword is omitted. */
  const DefaultIp: Value := Str("0.0.0.0")

  /** port used when the keyword is omitted. */
  const DefaultPort: Value := Int(80)

  /** The `address` property. */
  function Address(ip: string, port: Port): string
  {
    ip + ":" + PortText(port)
  }

  lemma IntTextChars(n: int)
    ensures ':' !in IntText(n)
  {
    var t := IntText(n);
    if n < 0 {
      assert forall i :: 1 <= i < |t| ==> t[i] == DecimalText(-n)[i - 1];
    }
  }

  /** A port that passed the range check is written without a colon. */
  lemma PortOkText(p: Port)
    requires PortOk(p)
    ensures ':' !in PortText(p)
  {
    match p
    case IntPort(n) => IntTextChars(n);
    case TextPort(s) =>
      if s[0] == '+' || s[0] == '-' {
        assert forall i :: 1 <= i < |s| ==> s[i] == s[1..][i - 1];
      }
  }

  /** The address splits back into the ip and the port text, so two Listens share
      an address exactly when they share the ip and the port as spelled. */
  lemma AddressParts(ip: string, port: Port)
    requires IsIPv4(ip) && ':' !in PortText(port)
    ensures Split(Address(ip, port), ':') == [ip, PortText(port)]
  {
    IPv4Chars(ip);
    SplitFree(ip, PortText(port), ':');
    SplitFree(PortText(port), [], ':');
  }

  lemma AddressInjective(ip1: string, p1: Port, ip2: string, p2: Port)
    requires IsIPv4(ip1) && ':' !in PortText(p1)
    requires IsIPv4(ip2) && ':' !in PortText(p2)
    ensures Address(ip1, p1) == Address(ip2, p2) <==> ip1 == ip2 && PortText(p1) == PortText(p2)
  {
    AddressParts(ip1, p1);
    AddressParts(ip2, p2);
  }

  /** For an int port, the port text of the address reads back as the port. */
  lemma AddressIntPort(ip: string, n: int)
    requires IsIPv4(ip)
    ensures ':' !in PortText(IntPort(n))
    ensures Split(Address(ip, IntPort(n)), ':') == [ip, IntText(n)]
    ensures ParseInt(Split(Address(ip, IntPort(n)), ':')[1]) == Some(n)
  {
    IntTextChars(n);
    AddressParts(ip, IntPort(n));
    IntTextRoundTrip(n);
  }

  /** The constructor outcomes the source's tests fix: the defaults give
      "0.0.0.0:80"; an int ip or a list port raise TypeError; a non-IPv4 ip or a port
      outside 1..65535 raise ValueError. */
  lemma ListenDefaults()
    ensures CheckListen(DefaultIp, DefaultPort) == Pass
    ensures Address(DefaultIp.s, PortOf(DefaultPort)) == "0.0.0.0:80"
  {
    IPv4Zero();
    assert DecimalText(80) == "80" by {
      assert DecimalText(8) == "8";
    }
  }

  lemma ListenTypeErrors()
    ensures CheckListen(Int(12345), DefaultPort) == Raised(TypeError)
    ensures CheckListen(DefaultIp, List([Str("something_wrong")])) == Raised(TypeError)
  {
  }

  lemma ListenBadIp()
    ensures CheckListen(Str("999.999.999.999"), DefaultPort) == Raised(ValueError)
  {
    IPv4Nines();
  }

  lemma ListenBadPort()
    ensures CheckListen(DefaultIp, Int(-1)) == Raised(ValueError)
    ensures CheckListen(DefaultIp, Int(0)) == Raised(ValueError)
    ensures CheckListen(DefaultIp, Int(77777)) == Raised(ValueError)
  {
    IPv4Zero();
  }
}
