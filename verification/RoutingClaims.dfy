/**
 * Who may claim a domain name or a listening port: the inventory's check over
 * all hosts and streams, and the check that each change to a stream goes through.
 */
module RoutingClaims {
  import opened Wrappers
  import opened Text
  import ClientHello

  /** No value occurs at two places. */
  predicate NoTwice<T(==)>(s: seq<T>) {
    forall i, j :: 0 <= i < j < |s| ==> s[i] != s[j]
  }

  lemma NoTwiceAppend<T>(s: seq<T>, x: T)
    ensures NoTwice(s + [x]) <==> NoTwice(s) && x !in s
  {
    var t := s + [x];
    assert forall i :: 0 <= i < |s| ==> t[i] == s[i];
    if NoTwice(t) {
      forall i | 0 <= i < |s|
        ensures s[i] != x
      {
        assert t[i] != t[|s|];
      }
    }
  }

  /*** Domain names ***/

  datatype DomainError = InvalidName(raw: string) | RepeatedName(domain: string) | BadCount

  function CanonicalDomain(raw: string): string {
    ClientHello.CaseFold(ClientHello.StripDots(Strip(raw)))
  }

  /** The canonical name is the fold of what stands between white space, without the dots that close it. */
  lemma CanonicalDomainExactly(left: string, name: string, dots: string, right: string)
    requires AllSpace(left) && AllSpace(right) && Trimmed(name + dots)
    requires (name == "" || name[|name| - 1] != '.') && forall c :: c in dots ==> c == '.'
    ensures CanonicalDomain(left + (name + dots) + right) == ClientHello.CaseFold(name)
  {
    hide Strip;
    StripExactly(left, name + dots, right);
    var r := ClientHello.StripDots(name + dots);
    assert forall i :: |name| <= i < |name + dots| ==> (name + dots)[i] in dots;
    assert name != "" ==> (name + dots)[|name| - 1] == name[|name| - 1];
    assert |r| == |name|;
    assert r == (name + dots)[..|name|] == name;
  }

  function CanonicalAll(values: seq<string>): (r: seq<string>)
    ensures |r| == |values|
  {
    seq(|values|, i requires 0 <= i < |values| => CanonicalDomain(values[i]))
  }

  /** Canonicalises the names; `valid` stands for the pattern a domain name has to match. */
  method CanonicalDomains(valid: string -> bool, values: seq<string>) returns (r: Result<seq<string>, DomainError>)
    ensures r.Ok? <==>
      && (forall i :: 0 <= i < |values| ==> valid(CanonicalDomain(values[i])))
      && NoTwice(CanonicalAll(values)) && 1 <= |values| <= 100
    ensures r.Ok? ==> r.value == CanonicalAll(values)
    ensures r.Err? && r.error.InvalidName? ==>
      exists i :: 0 <= i < |values| && r.error.raw == values[i] && !valid(CanonicalDomain(values[i])) && NoTwice(CanonicalAll(values[..i]))
    ensures r.Err? && r.error.RepeatedName? ==>
      exists i, j :: 0 <= i < j < |values| && r.error.domain == CanonicalDomain(values[i]) == CanonicalDomain(values[j])
    ensures r.Err? && r.error.BadCount? ==> !(1 <= |values| <= 100)
  {
    hide CanonicalDomain;
    var domains, seen: set<string> := [], {};
    for k := 0 to |values|
      invariant domains == CanonicalAll(values[..k]) && seen == set d | d in domains
      invariant NoTwice(domains) && forall i :: 0 <= i < k ==> valid(CanonicalDomain(values[i]))
    {
      var domain := CanonicalDomain(values[k]);
      if !valid(domain) {
        return Err(InvalidName(values[k]));
      }
      assert CanonicalAll(values[..k + 1]) == domains + [domain];
      NoTwiceAppend(domains, domain);
      if domain in seen {
        var i :| 0 <= i < k && domains[i] == domain;
        assert CanonicalAll(values)[i] == CanonicalAll(values)[k];
        return Err(RepeatedName(domain));
      }
      seen := seen + {domain};
      domains := domains + [domain];
    }
    assert values[..|values|] == values;
    if !(1 <= |domains| <= 100) {
      return Err(BadCount);
    }
    return Ok(domains);
  }

  /*** Ports ***/

  datatype Protocol = Tcp | Udp | TcpUdp

  datatype Transport = OverTcp | OverUdp

  datatype Claim = Claim(port: int, transport: Transport)

  datatype Stream = Stream(id: int, port: int, protocol: Protocol, target: string, targetPort: int, enabled: bool)

  /** The transports of a protocol, in the order they are claimed. */
  function Transports(p: Protocol): seq<Transport> {
    match p
    case Tcp => [OverTcp]
    case Udp => [OverUdp]
    case TcpUdp => [OverTcp, OverUdp]
  }

  /** The protocols that the stream table treats as taken by this one. */
  function Conflicts(p: Protocol): set<Protocol> {
    match p
    case Tcp => {Tcp, TcpUdp}
    case Udp => {Udp, TcpUdp}
    case TcpUdp => {Tcp, Udp, TcpUdp}
  }

  predicate Carries(p: Protocol, t: Transport) {
    p.TcpUdp? || (p.Tcp? && t.OverTcp?) || (p.Udp? && t.OverUdp?)
  }

  lemma CarriesExactly(p: Protocol)
    ensures forall t :: t in Transports(p) <==> Carries(p, t)
    ensures Carries(p, OverTcp) || Carries(p, OverUdp)
  {
    forall t
      ensures t in Transports(p) <==> Carries(p, t)
    {
      match p
      case Tcp => assert t in [OverTcp] <==> t == OverTcp;
      case Udp => assert t in [OverUdp] <==> t == OverUdp;
      case TcpUdp => assert t in [OverTcp, OverUdp] <==> t == OverTcp || t == OverUdp;
    }
  }

  /** The conflict table says exactly which protocols share a transport. */
  lemma ConflictsShareTransport(p: Protocol, q: Protocol)
    ensures q in Conflicts(p) <==> exists t :: t in Transports(p) && t in Transports(q)
  {
    CarriesExactly(p);
    CarriesExactly(q);
  }

  function ClaimsOf(s: Stream): seq<Claim> {
    if s.protocol.TcpUdp? then [Claim(s.port, OverTcp), Claim(s.port, OverUdp)]
    else [Claim(s.port, Transports(s.protocol)[0])]
  }

  function PortClaims(streams: seq<Stream>): seq<Claim> {
    if streams == [] then [] else PortClaims(streams[..|streams| - 1]) + ClaimsOf(streams[|streams| - 1])
  }

  /** Two streams that can be open together. */
  predicate Apart(a: Stream, b: Stream) {
    a.port != b.port || a.protocol !in Conflicts(b.protocol)
  }

  predicate AllApart(streams: seq<Stream>) {
    forall i, j :: 0 <= i < j < |streams| ==> Apart(streams[i], streams[j])
  }

  lemma ClaimsExactly(s: Stream, c: Claim)
    ensures c in ClaimsOf(s) <==> c.port == s.port && c.transport in Transports(s.protocol)
    ensures NoTwice(ClaimsOf(s))
  {
    var claims := ClaimsOf(s);
    assert c in claims <==> c == claims[0] || (s.protocol.TcpUdp? && c == claims[1]);
  }

  lemma ClaimsMeet(a: Stream, b: Stream)
    ensures Apart(a, b) <==> forall c :: c in ClaimsOf(a) ==> c !in ClaimsOf(b)
  {
    hide ClaimsOf, NoTwice, Transports, Conflicts;
    ConflictsShareTransport(b.protocol, a.protocol);
    forall c
      ensures c in ClaimsOf(a) <==> c.port == a.port && c.transport in Transports(a.protocol)
      ensures c in ClaimsOf(b) <==> c.port == b.port && c.transport in Transports(b.protocol)
    {
      ClaimsExactly(a, c);
      ClaimsExactly(b, c);
    }
    if !Apart(a, b) {
      var t :| t in Transports(b.protocol) && t in Transports(a.protocol);
      assert Claim(a.port, t) in ClaimsOf(a) && Claim(b.port, t) in ClaimsOf(b);
    }
  }

  lemma {:induction false} ClaimedBySome(streams: seq<Stream>, c: Claim)
    ensures c in PortClaims(streams) <==> exists i :: 0 <= i < |streams| && c in ClaimsOf(streams[i])
  {
    hide ClaimsOf;
    if streams != [] {
      ClaimedBySome(streams[..|streams| - 1], c);
    }
  }

  lemma NoTwiceConcat<T>(s: seq<T>, t: seq<T>)
    ensures NoTwice(s + t) <==> NoTwice(s) && NoTwice(t) && forall x :: x in s ==> x !in t
  {
    var all := s + t;
    assert forall i :: 0 <= i < |s| ==> all[i] == s[i];
    assert forall j :: 0 <= j < |t| ==> all[|s| + j] == t[j];
    if NoTwice(s) && NoTwice(t) && forall x :: x in s ==> x !in t {
      forall i, j | 0 <= i < j < |all|
        ensures all[i] != all[j]
      {
        if i < |s| <= j {
          assert s[i] in s && t[j - |s|] in t;
        } else if |s| <= i {
          assert t[i - |s|] != t[j - |s|];
        }
      }
    }
  }

  ghost predicate ClaimsNone(s: Stream, claims: seq<Claim>) {
    forall c :: c in claims ==> c !in ClaimsOf(s)
  }

  predicate ApartFrom(streams: seq<Stream>, s: Stream) {
    forall i :: 0 <= i < |streams| ==> Apart(streams[i], s)
  }

  /** Expanding every stream into its claims finds a repeated claim exactly when two streams conflict. */
  lemma {:induction false} ExpansionAgreesWithConflicts(streams: seq<Stream>)
    ensures NoTwice(PortClaims(streams)) <==> AllApart(streams)
  {
    hide ClaimsOf, Apart, NoTwice;
    if streams == [] {
      NothingClaimed();
      assert PortClaims(streams) == [] && AllApart(streams);
    } else {
      var before, last := streams[..|streams| - 1], streams[|streams| - 1];
      ExpansionAgreesWithConflicts(before);
      NoTwiceConcat(PortClaims(before), ClaimsOf(last));
      ClaimsExactly(last, Claim(0, OverTcp));
      LastMeetsNone(before, last);
      assert PortClaims(streams) == PortClaims(before) + ClaimsOf(last);
      assert forall i :: 0 <= i < |before| ==> streams[i] == before[i];
      assert AllApart(streams) <==> AllApart(before) && ApartFrom(before, last);
      assert NoTwice(PortClaims(streams)) <==> NoTwice(PortClaims(before)) && ClaimsNone(last, PortClaims(before));
    }
  }

  lemma LastMeetsNone(before: seq<Stream>, last: Stream)
    ensures ClaimsNone(last, PortClaims(before)) <==> ApartFrom(before, last)
  {
    hide ClaimsOf, Apart;
    forall c
      ensures c in PortClaims(before) <==> exists i :: 0 <= i < |before| && c in ClaimsOf(before[i])
    {
      ClaimedBySome(before, c);
    }
    forall i | 0 <= i < |before|
      ensures Apart(before[i], last) <==> forall c :: c in ClaimsOf(before[i]) ==> c !in ClaimsOf(last)
    {
      ClaimsMeet(before[i], last);
    }
  }

  lemma NothingClaimed()
    ensures NoTwice<Claim>([])
  {
  }

  /*** The inventory ***/

  datatype Family = Proxy | Redirection | Dead

  datatype Host = Host(id: int, domains: seq<string>)

  datatype Collision =
    | DomainTaken(domain: string, family: Family, id: int)
    | PortTaken(claim: Claim)

  /** A host's claim to a name, with who makes it. */
  datatype NameClaim = NameClaim(domain: string, family: Family, id: int)

  function HostClaims(family: Family, hosts: seq<Host>): seq<NameClaim> {
    if hosts == [] then []
    else HostClaims(family, hosts[..|hosts| - 1]) + NameClaims(family, hosts[|hosts| - 1].id, hosts[|hosts| - 1].domains)
  }

  function NameClaims(family: Family, id: int, domains: seq<string>): seq<NameClaim> {
    seq(|domains|, i requires 0 <= i < |domains| => NameClaim(domains[i], family, id))
  }

  function Names(claims: seq<NameClaim>): seq<string> {
    seq(|claims|, i requires 0 <= i < |claims| => claims[i].domain)
  }

  /** Every name claimed, in the order the inventory looks at them. */
  function AllNames(proxies: seq<Host>, redirections: seq<Host>, dead: seq<Host>): seq<NameClaim> {
    HostClaims(Proxy, proxies) + HostClaims(Redirection, redirections) + HostClaims(Dead, dead)
  }

  /** `claimed` holds the claims made so far, none of them twice. */
  predicate Holds(claimed: map<string, (Family, int)>, claims: seq<NameClaim>) {
    && NoTwice(Names(claims))
    && (forall c :: c in claims ==> c.domain in claimed && claimed[c.domain] == (c.family, c.id))
    && (forall d :: d in claimed ==> NameClaim(d, claimed[d].0, claimed[d].1) in claims)
  }

  lemma OneMoreName(claimed: map<string, (Family, int)>, claims: seq<NameClaim>, c: NameClaim)
    requires Holds(claimed, claims)
    ensures c.domain !in claimed ==> Holds(claimed[c.domain := (c.family, c.id)], claims + [c])
    ensures c.domain in claimed ==> NameClaim(c.domain, claimed[c.domain].0, claimed[c.domain].1) in claims
    ensures c.domain in claimed <==> !NoTwice(Names(claims + [c]))
  {
    assert Names(claims + [c]) == Names(claims) + [c.domain];
    NoTwiceAppend(Names(claims), c.domain);
    if c.domain in Names(claims) {
      var i :| 0 <= i < |claims| && Names(claims)[i] == c.domain;
      assert claims[i] in claims;
    }
    if c.domain in claimed {
      var i :| 0 <= i < |claims| && claims[i] == NameClaim(c.domain, claimed[c.domain].0, claimed[c.domain].1);
      assert Names(claims)[i] == c.domain;
    }
  }

  /** A name that is claimed again, and who claimed it first. */
  predicate TakenTwice(claims: seq<NameClaim>, e: Collision) {
    && e.DomainTaken?
    && exists i, j :: 0 <= i < j < |claims| && claims[i] == NameClaim(e.domain, e.family, e.id) && claims[j].domain == e.domain
  }

  lemma TakenInLonger(claims: seq<NameClaim>, more: seq<NameClaim>, e: Collision)
    requires TakenTwice(claims, e)
    ensures TakenTwice(claims + more, e) && !NoTwice(Names(claims + more))
  {
    var i, j :| 0 <= i < j < |claims| && claims[i] == NameClaim(e.domain, e.family, e.id) && claims[j].domain == e.domain;
    var all := claims + more;
    assert all[i] == claims[i] && all[j] == claims[j];
    assert Names(all)[i] == Names(all)[j];
  }

  method ClaimDomains(
      family: Family, id: int, domains: seq<string>, claimed: map<string, (Family, int)>, ghost claims: seq<NameClaim>)
    returns (r: Result<map<string, (Family, int)>, Collision>)
    requires Holds(claimed, claims)
    ensures r.Ok? ==> Holds(r.value, claims + NameClaims(family, id, domains))
    ensures r.Err? ==> TakenTwice(claims + NameClaims(family, id, domains), r.error)
  {
    hide Holds, TakenTwice, NameClaims;
    var now := claimed;
    NameClaimsNone(claims, family, id);
    for k := 0 to |domains|
      invariant Holds(now, claims + NameClaims(family, id, domains[..k]))
    {
      ghost var soFar := claims + NameClaims(family, id, domains[..k]);
      ghost var c := NameClaim(domains[k], family, id);
      OneMoreName(now, soFar, c);
      NameClaimsAt(claims, family, id, domains, k);
      if domains[k] in now {
        var (earlier, owner) := now[domains[k]];
        FoundTwice(soFar, c, earlier, owner);
        TakenInLonger(soFar + [c], NameClaims(family, id, domains[k + 1..]), DomainTaken(domains[k], earlier, owner));
        return Err(DomainTaken(domains[k], earlier, owner));
      }
      now := now[domains[k] := (family, id)];
    }
    assert domains[..|domains|] == domains;
    return Ok(now);
  }

  lemma NameClaimsNone(claims: seq<NameClaim>, family: Family, id: int)
    ensures claims + NameClaims(family, id, []) == claims
  {
  }

  lemma NameClaimsAt(claims: seq<NameClaim>, family: Family, id: int, domains: seq<string>, k: nat)
    requires k < |domains|
    ensures
      var soFar, c := claims + NameClaims(family, id, domains[..k]), NameClaim(domains[k], family, id);
      && claims + NameClaims(family, id, domains[..k + 1]) == soFar + [c]
      && claims + NameClaims(family, id, domains) == soFar + [c] + NameClaims(family, id, domains[k + 1..])
  {
  }

  lemma FoundTwice(claims: seq<NameClaim>, c: NameClaim, family: Family, id: int)
    requires NameClaim(c.domain, family, id) in claims
    ensures TakenTwice(claims + [c], DomainTaken(c.domain, family, id))
  {
    var i :| 0 <= i < |claims| && claims[i] == NameClaim(c.domain, family, id);
    assert (claims + [c])[i] == claims[i] && (claims + [c])[|claims|] == c;
  }

  method ClaimHosts(family: Family, hosts: seq<Host>, claimed: map<string, (Family, int)>, ghost claims: seq<NameClaim>)
    returns (r: Result<map<string, (Family, int)>, Collision>)
    requires Holds(claimed, claims)
    ensures r.Ok? ==> Holds(r.value, claims + HostClaims(family, hosts))
    ensures r.Err? ==> TakenTwice(claims + HostClaims(family, hosts), r.error)
  {
    hide Holds, TakenTwice, NameClaims;
    var now := claimed;
    NothingAdded(claims);
    for k := 0 to |hosts|
      invariant Holds(now, claims + HostClaims(family, hosts[..k]))
    {
      ghost var soFar := claims + HostClaims(family, hosts[..k]);
      var one := ClaimDomains(family, hosts[k].id, hosts[k].domains, now, soFar);
      assert hosts[..k + 1][..k] == hosts[..k];
      Associates(claims, HostClaims(family, hosts[..k]), NameClaims(family, hosts[k].id, hosts[k].domains));
      if one.Err? {
        var rest := HostsFrom(family, hosts, k + 1);
        TakenInLonger(claims + HostClaims(family, hosts[..k + 1]), rest, one.error);
        Associates(claims, HostClaims(family, hosts[..k + 1]), rest);
        return Err(one.error);
      }
      now := one.value;
    }
    assert hosts[..|hosts|] == hosts;
    return Ok(now);
  }

  lemma {:induction false} HostsFrom(family: Family, hosts: seq<Host>, k: nat) returns (rest: seq<NameClaim>)
    requires k <= |hosts|
    ensures HostClaims(family, hosts) == HostClaims(family, hosts[..k]) + rest
    decreases |hosts|
  {
    if k == |hosts| {
      assert hosts[..k] == hosts;
      rest := [];
      NothingAdded(HostClaims(family, hosts));
    } else {
      hide NameClaims;
      var last := |hosts| - 1;
      var inner := HostsFrom(family, hosts[..last], k);
      assert hosts[..last][..k] == hosts[..k];
      rest := inner + NameClaims(family, hosts[last].id, hosts[last].domains);
      Associates(HostClaims(family, hosts[..k]), inner, NameClaims(family, hosts[last].id, hosts[last].domains));
    }
  }

  /** The claim is made at two places. */
  predicate ClaimedTwice(claims: seq<Claim>, c: Claim) {
    exists i, j :: 0 <= i < j < |claims| && claims[i] == c && claims[j] == c
  }

  lemma TwiceInLonger(claims: seq<Claim>, more: seq<Claim>, c: Claim)
    requires ClaimedTwice(claims, c)
    ensures ClaimedTwice(claims + more, c) && !NoTwice(claims + more)
  {
    var i, j :| 0 <= i < j < |claims| && claims[i] == c && claims[j] == c;
    assert (claims + more)[i] == c && (claims + more)[j] == c;
  }

  lemma TwiceAtEnd(claims: seq<Claim>, c: Claim)
    requires c in claims
    ensures ClaimedTwice(claims + [c], c)
  {
    var i :| 0 <= i < |claims| && claims[i] == c;
    assert (claims + [c])[i] == c && (claims + [c])[|claims|] == c;
  }

  /** Claims what one stream wants, in turn; `earlier` are the claims made before it. */
  method ClaimPort(wanted: seq<Claim>, claimed: set<Claim>, ghost earlier: seq<Claim>) returns (r: Result<set<Claim>, Claim>)
    requires claimed == (set c | c in earlier) && NoTwice(earlier)
    ensures r.Ok? ==> r.value == (set c | c in earlier + wanted) && NoTwice(earlier + wanted)
    ensures r.Err? ==> ClaimedTwice(earlier + wanted, r.error)
  {
    hide NoTwice;
    var claims := claimed;
    assert earlier + wanted[..0] == earlier;
    for n := 0 to |wanted|
      invariant claims == set c | c in earlier + wanted[..n]
      invariant NoTwice(earlier + wanted[..n])
    {
      assert earlier + wanted[..n + 1] == earlier + wanted[..n] + [wanted[n]];
      NoTwiceAppend(earlier + wanted[..n], wanted[n]);
      if wanted[n] in claims {
        TwiceAtEnd(earlier + wanted[..n], wanted[n]);
        TwiceInLonger(earlier + wanted[..n + 1], wanted[n + 1..], wanted[n]);
        assert earlier + wanted == earlier + wanted[..n + 1] + wanted[n + 1..];
        return Err(wanted[n]);
      }
      claims := claims + {wanted[n]};
    }
    assert wanted[..|wanted|] == wanted;
    return Ok(claims);
  }

  method ClaimPorts(streams: seq<Stream>) returns (r: Option<Collision>)
    ensures r.None? <==> NoTwice(PortClaims(streams))
    ensures r.Some? ==> r.value.PortTaken? && ClaimedTwice(PortClaims(streams), r.value.claim)
  {
    hide NoTwice, ClaimsOf, ClaimedTwice;
    NothingClaimed();
    var claims: set<Claim> := {};
    for k := 0 to |streams|
      invariant claims == set c | c in PortClaims(streams[..k])
      invariant NoTwice(PortClaims(streams[..k]))
    {
      var one := ClaimPort(ClaimsOf(streams[k]), claims, PortClaims(streams[..k]));
      assert streams[..k + 1][..k] == streams[..k];
      if one.Err? {
        var rest := StreamsFrom(streams, k + 1);
        TwiceInLonger(PortClaims(streams[..k + 1]), rest, one.error);
        return Some(PortTaken(one.error));
      }
      claims := one.value;
    }
    assert streams[..|streams|] == streams;
    return None;
  }

  lemma {:induction false} StreamsFrom(streams: seq<Stream>, k: nat) returns (rest: seq<Claim>)
    requires k <= |streams|
    ensures PortClaims(streams) == PortClaims(streams[..k]) + rest
    decreases |streams|
  {
    if k == |streams| {
      assert streams[..k] == streams;
      rest := [];
      NothingAdded(PortClaims(streams));
    } else {
      hide ClaimsOf;
      var last := |streams| - 1;
      var inner := StreamsFrom(streams[..last], k);
      assert streams[..last][..k] == streams[..k];
      rest := inner + ClaimsOf(streams[last]);
      Associates(PortClaims(streams[..k]), inner, ClaimsOf(streams[last]));
    }
  }

  /** Accepts exactly when no name and no port of a transport is claimed twice; otherwise names one that is. */
  method ValidateInventory(proxies: seq<Host>, redirections: seq<Host>, dead: seq<Host>, streams: seq<Stream>)
    returns (r: Option<Collision>)
    ensures r.None? <==> NoTwice(Names(AllNames(proxies, redirections, dead))) && AllApart(streams)
    ensures r.Some? && r.value.DomainTaken? ==> TakenTwice(AllNames(proxies, redirections, dead), r.value)
    ensures r.Some? && r.value.PortTaken? ==> ClaimedTwice(PortClaims(streams), r.value.claim) && !AllApart(streams)
  {
    hide Holds, TakenTwice, NoTwice, HostClaims, Names, AllApart, ClaimedTwice;
    ExpansionAgreesWithConflicts(streams);
    NoNames();
    var first := ClaimHosts(Proxy, proxies, map[], []);
    ghost var one := HostClaims(Proxy, proxies);
    ghost var two, three := one + HostClaims(Redirection, redirections), AllNames(proxies, redirections, dead);
    NothingAdded(one);
    NothingAdded(three);
    Associates(one, HostClaims(Redirection, redirections), HostClaims(Dead, dead));
    if first.Err? {
      TakenInLonger(one, HostClaims(Redirection, redirections) + HostClaims(Dead, dead), first.error);
      TakenIsDomain(one, first.error);
      return Some(first.error);
    }
    var second := ClaimHosts(Redirection, redirections, first.value, one);
    if second.Err? {
      TakenInLonger(two, HostClaims(Dead, dead), second.error);
      TakenIsDomain(two, second.error);
      return Some(second.error);
    }
    var third := ClaimHosts(Dead, dead, second.value, two);
    if third.Err? {
      TakenInLonger(three, [], third.error);
      TakenIsDomain(three, third.error);
      return Some(third.error);
    }
    HeldOnce(third.value, three);
    r := ClaimPorts(streams);
  }

  lemma NoNames()
    ensures Holds(map[], [])
  {
  }

  lemma HeldOnce(claimed: map<string, (Family, int)>, claims: seq<NameClaim>)
    requires Holds(claimed, claims)
    ensures NoTwice(Names(claims))
  {
  }

  lemma TakenIsDomain(claims: seq<NameClaim>, e: Collision)
    requires TakenTwice(claims, e)
    ensures e.DomainTaken?
  {
  }
}
