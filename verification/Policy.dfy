/** The v1alpha1 policy model: ports, peers, rules, policies, and the containers they select. */
module Policy {
  import opened Common
  import opened Text
  import opened Ordering
  import opened Address

  type u16 = x: int | 0 <= x < 0x1_0000

  const U16_MAX := 0xFFFF
  const U8_MAX := 0xFF

  datatype Protocol = Tcp | Udp

  /** A port, a port range, or (no number) every port of a protocol. */
  datatype Port = Port(number: Option<u16>, protocol: Protocol, end: Option<u16>)

  datatype PortError = UnknownProtocol(text: string) | InvalidPort(text: string) | EmptyRange(text: string)

  function AsciiLower(s: string): (r: string)
    ensures |r| == |s|
  {
    seq(|s|, i requires 0 <= i < |s| =>
      if 'A' <= s[i] <= 'Z' then (s[i] as int + 32) as char else s[i])
  }

  function ParseProtocol(s: string): Result<Protocol, PortError> {
    var lower := AsciiLower(s);
    if lower == "tcp" then Ok(Tcp) else if lower == "udp" then Ok(Udp) else Err(UnknownProtocol(lower))
  }

  /** The number part of a port: all, a range whose end exceeds its start, or one port. */
  function ParseNumbers(num: string): Result<(Option<u16>, Option<u16>), PortError> {
    if num == "*" || num == "" then Ok((None, None)) else
    match SplitOnce(num, '-')
    case Some((lo, hi)) => (
      match (ParseUint(lo, U16_MAX), ParseUint(hi, U16_MAX))
      case (None, _) => Err(InvalidPort(lo))
      case (Some(_), None) => Err(InvalidPort(hi))
      case (Some(l), Some(h)) => if h <= l then Err(EmptyRange(num)) else Ok((Some(l), Some(h))))
    case None => (
      match ParseUint(num, U16_MAX)
      case None => Err(InvalidPort(num))
      case Some(n) => Ok((Some(n), None)))
  }

  function ParsePort(s: string): Result<Port, PortError> {
    var (num, proto) := match SplitOnce(s, '/') case Some(parts) => parts case None => (s, "tcp");
    match ParseProtocol(proto)
    case Err(e) => Err(e)
    case Ok(protocol) => (
      match ParseNumbers(num)
      case Err(e) => Err(e)
      case Ok((number, end)) => Ok(Port(number, protocol, end)))
  }

  function PrintPort(p: Port): string {
    var proto := if p.protocol == Tcp then "tcp" else "udp";
    match (p.number, p.end)
    case (Some(n), Some(e)) => Decimal(n) + "-" + Decimal(e) + "/" + proto
    case (Some(n), None) => Decimal(n) + "/" + proto
    case (None, _) => "*/" + proto
  }

  /** What a written port can denote: an end needs a start, and must exceed it. */
  predicate ValidPort(p: Port) {
    p.end.Some? ==> p.number.Some? && p.number.value < p.end.value
  }

  /** Only valid ports come out of the parser. */
  lemma ParsedPortValid(s: string)
    ensures ParsePort(s).Ok? ==> ValidPort(ParsePort(s).value)
  {}

  lemma ParsePrintedNumbers(p: Port)
    requires ValidPort(p)
    ensures p.number.None? ==> ParseNumbers("*") == Ok((p.number, p.end))
    ensures p.number.Some? && p.end.None? ==> ParseNumbers(Decimal(p.number.value)) == Ok((p.number, p.end))
    ensures p.end.Some? ==>
      ParseNumbers(Decimal(p.number.value) + "-" + Decimal(p.end.value)) == Ok((p.number, p.end))
  {
    if p.number.Some? {
      var n := Decimal(p.number.value);
      assert IsDigit(n[0]);
      ParsePrintedUint(p.number.value, U16_MAX);
      if p.end.Some? {
        var e := Decimal(p.end.value);
        ParsePrintedUint(p.end.value, U16_MAX);
        SplitOnceAt(n, '-', e);
        assert n + "-" + e == n + ['-'] + e;
        assert (n + "-" + e)[0] == n[0];
      } else {
        IndexOfAbsent(n, '-');
      }
    }
  }

  /** Reading a printed port gives the port back, exactly for the valid ports. */
  lemma PortRoundTrip(p: Port)
    ensures ParsePort(PrintPort(p)) == Ok(p) <==> ValidPort(p)
  {
    hide Decimal, SplitOnce, ParseNumbers;
    if ValidPort(p) {
      var proto := if p.protocol == Tcp then "tcp" else "udp";
      var num := match (p.number, p.end)
        case (Some(n), Some(e)) => Decimal(n) + "-" + Decimal(e)
        case (Some(n), None) => Decimal(n)
        case (None, _) => "*";
      assert PrintPort(p) == num + ['/'] + proto;
      SplitOnceAt(num, '/', proto);
      ParsePrintedNumbers(p);
      assert AsciiLower("tcp") == "tcp" && AsciiLower("udp") == "udp";
    } else {
      ParsedPortValid(PrintPort(p));
    }
  }

  /** Whatever spelling was read, printing it yields a spelling that reads the same and prints the same. */
  lemma PortNormalForm(s: string)
    requires ParsePort(s).Ok?
    ensures var p := ParsePort(s).value;
            ParsePort(PrintPort(p)) == Ok(p) && PrintPort(ParsePort(PrintPort(p)).value) == PrintPort(p)
  {
    ParsedPortValid(s);
    PortRoundTrip(ParsePort(s).value);
  }

  /** A port written without a protocol is a TCP port. */
  lemma BarePortIsTcp(s: string)
    requires '/' !in s
    ensures ParsePort(s) == ParsePort(s + "/tcp")
  {
    IndexOfAbsent(s, '/');
    assert s + "/tcp" == s + ['/'] + "tcp";
    SplitOnceAt(s, '/', "tcp");
    assert AsciiLower("tcp") == "tcp";
  }

  /** An omitted number is every port, as `*` is. */
  lemma OmittedNumberIsAll(proto: string)
    ensures ParsePort("/" + proto) == ParsePort("*/" + proto)
    ensures ParsePort("*/" + proto).Ok? ==>
      ParsePort("*/" + proto).value.number.None? && ParsePort("*/" + proto).value.end.None?
  {
    assert "/" + proto == "" + ['/'] + proto && "*/" + proto == "*" + ['/'] + proto;
    SplitOnceAt("", '/', proto);
    SplitOnceAt("*", '/', proto);
  }

  /** Protocols are `tcp` and `udp` in any mix of ASCII cases, and nothing else. */
  lemma ProtocolExactly(s: string)
    ensures ParseProtocol(s) == Ok(Tcp)
       <==> |s| == 3 && (s[0] == 't' || s[0] == 'T') && (s[1] == 'c' || s[1] == 'C') && (s[2] == 'p' || s[2] == 'P')
    ensures ParseProtocol(s) == Ok(Udp)
       <==> |s| == 3 && (s[0] == 'u' || s[0] == 'U') && (s[1] == 'd' || s[1] == 'D') && (s[2] == 'p' || s[2] == 'P')
  {
    var lower := AsciiLower(s);
    if |s| == 3 {
      assert lower == "tcp" <==> lower[0] == 't' && lower[1] == 'c' && lower[2] == 'p';
      assert lower == "udp" <==> lower[0] == 'u' && lower[1] == 'd' && lower[2] == 'p';
    }
  }

  // ----- policies -----

  /** A policy type names the direction it isolates. */
  datatype Direction = Egress | Ingress

  datatype RuleAction = Allow | Drop

  type Labels = map<string, string>

  datatype Peer = Peer(
    container: Option<string>,
    network: Option<string>,
    cidr: Option<string>,
    except: seq<string>,
    selector: Option<Labels>)

  /** An ingress rule (`peers` are its sources) or an egress rule (`peers` are its destinations). */
  datatype PolicyRule = PolicyRule(peers: seq<Peer>, ports: seq<Port>, action: RuleAction, log: Option<bool>)

  datatype NetworkPolicy = NetworkPolicy(
    endpointSelector: Option<Labels>,
    policyTypes: seq<Direction>,
    ingress: seq<PolicyRule>,
    egress: seq<PolicyRule>)

  datatype NamedPolicy = NamedPolicy(name: string, policy: NetworkPolicy)

  function RulesOf(np: NetworkPolicy, dir: Direction): seq<PolicyRule> {
    if dir == Egress then np.egress else np.ingress
  }

  /** A listed direction, or (no types listed) a direction that has rules. */
  predicate Enforces(np: NetworkPolicy, dir: Direction) {
    dir in np.policyTypes || (np.policyTypes == [] && RulesOf(np, dir) != [])
  }

  /** A running container: its labels and its addresses per Docker network. */
  datatype Target = Target(name: string, labels: Labels, networks: map<string, seq<IpAddr>>)

  /** A container's addresses across all its networks. */
  function TargetIps(t: Target): set<IpAddr> {
    set n, a | n in t.networks && a in t.networks[n] :: a
  }

  predicate SelectorMatches(selector: Labels, labels: Labels) {
    forall k :: k in selector ==> k in labels && labels[k] == selector[k]
  }

  /** Labels `<prefix>.<infix>.<name>` as (name, value), in key order. */
  function PolicyLabels(prefix: string, infix: string, labels: Labels): seq<(string, string)> {
    LabelsIn(prefix + "." + infix + ".", AscendingStrings(labels.Keys), labels)
  }

  function LabelsIn(keyPrefix: string, keys: seq<string>, labels: Labels): seq<(string, string)>
    requires forall k :: k in keys ==> k in labels
  {
    if keys == [] then [] else
      var rest := LabelsIn(keyPrefix, keys[1..], labels);
      match StripPrefix(keys[0], keyPrefix)
      case Some(name) => [(name, labels[keys[0]])] + rest
      case None => rest
  }

  lemma {:induction false} InLabels(keyPrefix: string, keys: seq<string>, labels: Labels, name: string, value: string)
    requires forall k :: k in keys ==> k in labels
    ensures (name, value) in LabelsIn(keyPrefix, keys, labels)
       <==> keyPrefix + name in keys && labels[keyPrefix + name] == value
  {
    if keys == [] {
    } else {
      InLabels(keyPrefix, keys[1..], labels, name, value);
      if keyPrefix <= keys[0] { assert keys[0] == keyPrefix + keys[0][|keyPrefix|..]; }
      assert (keyPrefix + name)[|keyPrefix|..] == name;
    }
  }

  /** Exactly the labels under the prefix are policies, each under the rest of its key. */
  lemma PolicyLabelsExact(prefix: string, infix: string, labels: Labels, name: string, value: string)
    ensures (name, value) in PolicyLabels(prefix, infix, labels)
       <==> (prefix + "." + infix + "." + name in labels && labels[prefix + "." + infix + "." + name] == value)
  {
    InLabels(prefix + "." + infix + ".", AscendingStrings(labels.Keys), labels, name, value);
  }

  /** Address text is read by the standard library; the model takes that reader as a parameter. */
  type IpReader = string -> Option<IpAddr>

  datatype CidrError = MissingSlash | InvalidAddress | InvalidPrefix | PrefixOutOfRange

  function ParseCidr(readIp: IpReader, s: string): (r: Result<Cidr, CidrError>)
    ensures r.Ok? ==> ValidCidr(r.value)
  {
    match SplitOnce(s, '/')
    case None => Err(MissingSlash)
    case Some((addr, prefix)) =>
      match readIp(addr)
      case None => Err(InvalidAddress)
      case Some(a) =>
        match ParseUint(prefix, U8_MAX)
        case None => Err(InvalidPrefix)
        case Some(p) => if p > Width(FamilyOf(a)) then Err(PrefixOutOfRange) else Ok(Cidr(a, p))
  }

  /** The text is this block's address, a slash, and its prefix, which fits the family. */
  predicate Spells(readIp: IpReader, s: string, addr: string, digits: string, c: Cidr) {
    && s == addr + "/" + digits && '/' !in addr
    && readIp(addr) == Some(c.addr)
    && ParseUint(digits, 255) == Some(c.prefix)
    && c.prefix <= if c.addr.V4? then 32 else 128
  }

  lemma CidrExactly(readIp: IpReader, s: string, c: Cidr)
    ensures ParseCidr(readIp, s) == Ok(c) <==> exists addr, digits :: Spells(readIp, s, addr, digits, c)
  {
    hide ParseUint;
    if ParseCidr(readIp, s) == Ok(c) {
      var (addr, digits) := SplitOnce(s, '/').value;
      assert Spells(readIp, s, addr, digits, c);
    }
    if addr, digits :| Spells(readIp, s, addr, digits, c) {
      assert s == addr + ['/'] + digits;
      SplitOnceAt(addr, '/', digits);
    }
  }

  /** Writing `addr/prefix` is read back as that block exactly when the prefix fits the family. */
  lemma CidrRoundTrip(readIp: IpReader, text: string, a: IpAddr, prefix: nat)
    requires '/' !in text && readIp(text) == Some(a) && prefix <= U8_MAX
    ensures ParseCidr(readIp, text + "/" + Decimal(prefix))
         == if prefix <= (if a.V4? then 32 else 128) then Ok(Cidr(a, prefix)) else Err(PrefixOutOfRange)
  {
    assert text + "/" + Decimal(prefix) == text + ['/'] + Decimal(prefix);
    SplitOnceAt(text, '/', Decimal(prefix));
    ParsePrintedUint(prefix, U8_MAX);
  }
}
