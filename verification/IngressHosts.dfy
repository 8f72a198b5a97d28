/** The hosts of a project's ingress: routing rules, TLS entries and the cert-manager annotation. */
module IngressHosts {
  import opened Wrappers
  import opened Names

  const WILDCARD_SECRET := "preview-wildcard-tls"

  datatype Tls = Tls(hosts: seq<string>, secret: string)

  // The host of each rule, the TLS entries, and whether the cluster-issuer annotation is set.
  datatype Ingress = Ingress(rules: seq<string>, tls: seq<Tls>, issuer: bool)

  // ---------------------------------------------------------------------
  // Hosts
  // ---------------------------------------------------------------------

  function TrimPrefix(s: string, prefix: string): string {
    if prefix <= s then s[|prefix|..] else s
  }

  // strings.Split(s, "/")[0]
  function BeforeSlash(s: string): string {
    if s == [] || s[0] == '/' then [] else [s[0]] + BeforeSlash(s[1..])
  }

  function SanitizeHost(host: string): string {
    ToLower(BeforeSlash(TrimPrefix(TrimPrefix(host, "https://"), "http://")))
  }

  predicate HasSuffix(s: string, suffix: string) {
    |suffix| <= |s| && s[|s| - |suffix|..] == suffix
  }

  predicate IsSubdomain(host: string, baseDomain: string) {
    && baseDomain != ""
    && (HasSuffix(ToLower(host), "." + ToLower(baseDomain)) || ToLower(host) == ToLower(baseDomain))
  }

  lemma {:induction false} BeforeSlashHasNone(s: string)
    ensures '/' !in BeforeSlash(s)
    decreases |s|
  {
    if s != [] && s[0] != '/' { BeforeSlashHasNone(s[1..]); }
  }

  lemma {:induction false} BeforeSlashFixed(s: string)
    requires '/' !in s
    ensures BeforeSlash(s) == s
    decreases |s|
  {
    if s != [] {
      assert s[0] != '/';
      BeforeSlashFixed(s[1..]);
    }
  }

  lemma LowerTwice(s: string)
    ensures ToLower(ToLower(s)) == ToLower(s) && ('/' !in s ==> '/' !in ToLower(s))
  {
    var low := ToLower(s);
    LowerIsPointwise(s);
    LowerIsPointwise(low);
    assert forall i | 0 <= i < |s| :: low[i] == '/' ==> s[i] == '/';
  }

  lemma NotAPrefix(prefix: string, s: string, k: nat)
    requires k < |prefix| && prefix[k] !in s
    ensures !(prefix <= s)
  {
    var common := if |prefix| <= |s| then s[..|prefix|] else [];
    assert forall c | c in common :: c in s;
  }

  // A sanitized host is a fixed point: no scheme, no path, lower case.
  lemma SanitizeHostIdempotent(host: string)
    ensures SanitizeHost(SanitizeHost(host)) == SanitizeHost(host)
  {
    var b := BeforeSlash(TrimPrefix(TrimPrefix(host, "https://"), "http://"));
    BeforeSlashHasNone(TrimPrefix(TrimPrefix(host, "https://"), "http://"));
    LowerTwice(b);
    var h := ToLower(b);
    NotAPrefix("https://", h, 6);
    NotAPrefix("http://", h, 5);
    BeforeSlashFixed(h);
  }

  lemma {:induction false} BeforeSlashStops(host: string, path: string)
    requires '/' !in host && (path == [] || path[0] == '/')
    ensures BeforeSlash(host + path) == host
    decreases |host|
  {
    if host == [] {
      assert host + path == path;
    } else {
      assert host[0] != '/' && (host + path)[0] == host[0];
      assert (host + path)[1..] == host[1..] + path;
      BeforeSlashStops(host[1..], path);
    }
  }

  predicate IsHost(host: string) {
    '/' !in host && (host == [] || host[|host| - 1] != ':')
  }

  predicate IsPath(path: string) {
    path == [] || path[0] == '/'
  }

  // A scheme without its "//", for the comparison with a host.
  predicate IsScheme(scheme: string, name: string) {
    scheme == name + "//" && '/' !in name && name != [] && name[|name| - 1] == ':'
  }

  lemma Differs(s: string, prefix: string, k: nat)
    requires k < |prefix| && (k < |s| ==> s[k] != prefix[k])
    ensures TrimPrefix(s, prefix) == s
  {
  }

  // A host without a colon at its end is not mistaken for a scheme.
  lemma NoScheme(host: string, path: string, scheme: string, name: string)
    requires IsHost(host) && IsPath(path) && IsScheme(scheme, name)
    ensures TrimPrefix(host + path, scheme) == host + path
  {
    if |host| > |name| {
      assert host[|name|] in host;
      Differs(host + path, scheme, |name|);
    } else if |host| == |name| {
      Differs(host + path, scheme, |name| - 1);
    } else {
      assert name[|host|] in name && scheme[|host|] == name[|host|];
      Differs(host + path, scheme, |host|);
    }
  }

  lemma TrimsPrefix(prefix: string, rest: string)
    ensures TrimPrefix(prefix + rest, prefix) == rest
  {
  }

  lemma SchemesDiffer(rest: string)
    ensures TrimPrefix("http://" + rest, "https://") == "http://" + rest
  {
    Differs("http://" + rest, "https://", 4);
  }

  lemma WithoutScheme(scheme: string, rest: string)
    requires scheme in {"", "https://", "http://"}
    requires TrimPrefix(rest, "https://") == rest == TrimPrefix(rest, "http://")
    ensures TrimPrefix(TrimPrefix(scheme + rest, "https://"), "http://") == rest
  {
    TrimsPrefix(scheme, rest);
    SchemesDiffer(rest);
    assert "" + rest == rest;
  }

  // Of a URL the sanitized host is its host, in lower case, with or without a scheme and a path.
  lemma HostOfUrl(scheme: string, host: string, path: string)
    requires scheme in {"", "https://", "http://"} && IsHost(host) && IsPath(path)
    ensures SanitizeHost(scheme + (host + path)) == ToLower(host)
  {
    assert IsScheme("https://", "https:") && IsScheme("http://", "http:");
    NoScheme(host, path, "https://", "https:");
    NoScheme(host, path, "http://", "http:");
    WithoutScheme(scheme, host + path);
    BeforeSlashStops(host, path);
  }

  // A sanitized host belongs to the base domain when it is that domain or ends in a dot and it; with
  // no base domain none does.
  lemma UnderBaseDomain(host: string, baseDomain: string)
    requires SanitizeHost(host) == host
    ensures IsSubdomain(host, baseDomain)
            <==> baseDomain != ""
                 && (host == ToLower(baseDomain) || exists sub: string :: host == sub + "." + ToLower(baseDomain))
  {
    var base := ToLower(baseDomain);
    LowerTwice(BeforeSlash(TrimPrefix(TrimPrefix(host, "https://"), "http://")));
    assert ToLower(host) == host;
    if HasSuffix(host, "." + base) {
      var k := |host| - |"." + base|;
      assert host == host[..k] + host[k..] == host[..k] + "." + base;
    }
    forall sub: string | host == sub + "." + base ensures HasSuffix(host, "." + base) {
      assert host == sub + ("." + base);
    }
  }

  // ---------------------------------------------------------------------
  // Building an ingress from a list of hosts
  // ---------------------------------------------------------------------

  function SanitizeAll(hosts: seq<string>): seq<string> {
    if hosts == [] then [] else SanitizeAll(hosts[..|hosts| - 1]) + [SanitizeHost(hosts[|hosts| - 1])]
  }

  // The hosts that are (or are not) under the base domain, in order.
  function Select(hosts: seq<string>, baseDomain: string, under: bool): seq<string> {
    if hosts == [] then []
    else
      var h := hosts[|hosts| - 1];
      Select(hosts[..|hosts| - 1], baseDomain, under) + if IsSubdomain(h, baseDomain) == under then [h] else []
  }

  function NonEmpty(domains: seq<string>): seq<string> {
    if domains == [] then []
    else
      var d := domains[|domains| - 1];
      NonEmpty(domains[..|domains| - 1]) + if d == "" then [] else [d]
  }

  function CustomSecret(name: string): string {
    name + "-custom-tls"
  }

  function BuildTls(name: string, subdomainHosts: seq<string>, customHosts: seq<string>): seq<Tls> {
    (if subdomainHosts != [] then [Tls(subdomainHosts, WILDCARD_SECRET)] else [])
    + (if customHosts != [] then [Tls(customHosts, CustomSecret(name))] else [])
  }

  function BuildIngress(name: string, baseDomain: string, hosts: seq<string>): Ingress {
    var sanitized := SanitizeAll(hosts);
    var custom := Select(sanitized, baseDomain, false);
    Ingress(sanitized, BuildTls(name, Select(sanitized, baseDomain, true), custom), custom != [])
  }

  // ---------------------------------------------------------------------
  // The invariant
  // ---------------------------------------------------------------------

  // All hosts secured by a secret.
  function Secured(tls: seq<Tls>, secret: string): seq<string> {
    if tls == [] then []
    else (if tls[0].secret == secret then tls[0].hosts else []) + Secured(tls[1..], secret)
  }

  function AllSecured(tls: seq<Tls>): seq<string> {
    if tls == [] then [] else tls[0].hosts + AllSecured(tls[1..])
  }

  // The TLS entries split the rule hosts, counted with repetition, between the wildcard
  // certificate (exactly the hosts under the base domain) and the project's own certificate,
  // which cert-manager is asked for exactly when it is needed.
  ghost predicate Consistent(name: string, baseDomain: string, i: Ingress) {
    var wildcard, custom := Secured(i.tls, WILDCARD_SECRET), Secured(i.tls, CustomSecret(name));
    && (forall h | h in i.rules :: SanitizeHost(h) == h)
    && multiset(i.rules) == multiset(wildcard) + multiset(custom)
    && multiset(AllSecured(i.tls)) == multiset(i.rules)
    && (forall h | h in wildcard :: IsSubdomain(h, baseDomain))
    && (forall h | h in custom :: !IsSubdomain(h, baseDomain))
    && (i.issuer <==> custom != [])
    && (forall t | t in i.tls :: t.hosts != [])
  }

  function Elements(hosts: seq<string>): set<string> {
    set h | h in hosts
  }

  function HostSet(i: Ingress): set<string> {
    Elements(i.rules)
  }

  lemma ElementsSnoc(hosts: seq<string>, h: string)
    ensures Elements(hosts + [h]) == Elements(hosts) + {h}
  {
  }

  lemma SecretsDiffer(name: string)
    ensures CustomSecret(name) != WILDCARD_SECRET
  {
    var c, w := CustomSecret(name), WILDCARD_SECRET;
    if |c| == |w| {
      assert c[|c| - 5] == "-custom-tls"[6] == 'm';
      assert w[|w| - 5] == 'd';
    }
  }

  lemma {:induction false} SelectSplits(hosts: seq<string>, baseDomain: string)
    ensures multiset(hosts) == multiset(Select(hosts, baseDomain, true)) + multiset(Select(hosts, baseDomain, false))
    ensures forall h | h in Select(hosts, baseDomain, true) :: IsSubdomain(h, baseDomain)
    ensures forall h | h in Select(hosts, baseDomain, false) :: !IsSubdomain(h, baseDomain)
    decreases |hosts|
  {
    if hosts != [] {
      SelectSplits(hosts[..|hosts| - 1], baseDomain);
      assert hosts == hosts[..|hosts| - 1] + [hosts[|hosts| - 1]];
    }
  }

  lemma SanitizeSnoc(hosts: seq<string>, h: string)
    ensures SanitizeAll(hosts + [h]) == SanitizeAll(hosts) + [SanitizeHost(h)]
  {
    assert (hosts + [h])[..|hosts|] == hosts;
  }

  lemma SelectSnoc(hosts: seq<string>, h: string, baseDomain: string, under: bool)
    ensures Select(hosts + [h], baseDomain, under)
            == Select(hosts, baseDomain, under) + if IsSubdomain(h, baseDomain) == under then [h] else []
  {
    assert (hosts + [h])[..|hosts|] == hosts;
  }

  lemma NonEmptySnoc(domains: seq<string>, d: string)
    ensures NonEmpty(domains + [d]) == NonEmpty(domains) + if d == "" then [] else [d]
  {
    assert (domains + [d])[..|domains|] == domains;
  }

  lemma {:induction false} SanitizedAreFixed(hosts: seq<string>)
    ensures forall h | h in SanitizeAll(hosts) :: SanitizeHost(h) == h
    decreases |hosts|
  {
    if hosts != [] {
      SanitizedAreFixed(hosts[..|hosts| - 1]);
      SanitizeHostIdempotent(hosts[|hosts| - 1]);
    }
  }

  predicate Fixed(h: string) {
    SanitizeHost(h) == h
  }

  lemma {:induction false} SanitizeAllFixed(hosts: seq<string>)
    requires forall h | h in hosts :: Fixed(h)
    ensures SanitizeAll(hosts) == hosts
    decreases |hosts|
  {
    if hosts != [] {
      var m := |hosts| - 1;
      var rest, last := hosts[..m], hosts[m];
      assert hosts == rest + [last];
      assert forall h | h in rest :: h in hosts;
      SanitizeAllFixed(rest);
      assert last in hosts && Fixed(last);
      SanitizeSnoc(rest, last);
    }
  }

  // Hosts drawn from sanitized rules are not changed by sanitizing them again.
  lemma DrawnFromFixed(hosts: seq<string>, rules: seq<string>)
    requires SanitizeAll(rules) == rules && forall h | h in hosts :: h in rules
    ensures SanitizeAll(hosts) == hosts
  {
    SanitizedAreFixed(rules);
    assert forall h | h in rules :: Fixed(h);
    SanitizeAllFixed(hosts);
  }

  lemma SanitizeAllTwice(hosts: seq<string>)
    ensures SanitizeAll(SanitizeAll(hosts)) == SanitizeAll(hosts)
  {
    SanitizedAreFixed(hosts);
    assert forall h | h in SanitizeAll(hosts) :: Fixed(h);
    SanitizeAllFixed(SanitizeAll(hosts));
  }

  // Whatever the list of hosts, the ingress built from it is consistent.
  lemma BuildIsConsistent(name: string, baseDomain: string, hosts: seq<string>)
    ensures Consistent(name, baseDomain, BuildIngress(name, baseDomain, hosts))
  {
    var rules := SanitizeAll(hosts);
    SanitizedAreFixed(hosts);
    SelectSplits(rules, baseDomain);
    SecuredByBuild(name, Select(rules, baseDomain, true), Select(rules, baseDomain, false));
  }

  // Which hosts each certificate secures, in the order of the list, and that there is no other.
  lemma CertificatesOf(name: string, baseDomain: string, hosts: seq<string>)
    ensures var i := BuildIngress(name, baseDomain, hosts);
            && Secured(i.tls, "preview-wildcard-tls") == Select(i.rules, baseDomain, true)
            && Secured(i.tls, name + "-custom-tls") == Select(i.rules, baseDomain, false)
            && forall t | t in i.tls :: t.secret in {"preview-wildcard-tls", name + "-custom-tls"}
  {
    var rules := SanitizeAll(hosts);
    SecuredByBuild(name, Select(rules, baseDomain, true), Select(rules, baseDomain, false));
  }

  lemma SecuredOne(t: Tls, secret: string)
    ensures Secured([t], secret) == (if t.secret == secret then t.hosts else []) && AllSecured([t]) == t.hosts
  {
    assert [t][1..] == [];
  }

  lemma SecuredTwo(t: Tls, u: Tls, secret: string)
    ensures Secured([t, u], secret)
            == (if t.secret == secret then t.hosts else []) + (if u.secret == secret then u.hosts else [])
    ensures AllSecured([t, u]) == t.hosts + u.hosts
  {
    assert [t, u][1..] == [u];
    SecuredOne(u, secret);
  }

  lemma SecuredByBuild(name: string, sub: seq<string>, custom: seq<string>)
    ensures var tls := BuildTls(name, sub, custom);
            && Secured(tls, WILDCARD_SECRET) == sub
            && Secured(tls, CustomSecret(name)) == custom
            && AllSecured(tls) == sub + custom
            && (forall t | t in tls :: t.hosts != [])
  {
    SecretsDiffer(name);
    var w, c := Tls(sub, WILDCARD_SECRET), Tls(custom, CustomSecret(name));
    if sub != [] && custom != [] {
      assert BuildTls(name, sub, custom) == [w, c];
      SecuredTwo(w, c, WILDCARD_SECRET); SecuredTwo(w, c, CustomSecret(name));
    } else if sub != [] {
      assert BuildTls(name, sub, custom) == [w];
      SecuredOne(w, WILDCARD_SECRET); SecuredOne(w, CustomSecret(name));
    } else if custom != [] {
      assert BuildTls(name, sub, custom) == [c];
      SecuredOne(c, WILDCARD_SECRET); SecuredOne(c, CustomSecret(name));
    }
  }

  lemma ClassifyNext(domains: seq<string>, baseDomain: string, d: string)
    ensures var next, all, h := SanitizeAll(domains + [d]), SanitizeAll(domains), SanitizeHost(d);
            && next == all + [h]
            && Select(next, baseDomain, true)
               == Select(all, baseDomain, true) + (if IsSubdomain(h, baseDomain) then [h] else [])
            && Select(next, baseDomain, false)
               == Select(all, baseDomain, false) + (if IsSubdomain(h, baseDomain) then [] else [h])
  {
    SanitizeSnoc(domains, d);
    SelectSnoc(SanitizeAll(domains), SanitizeHost(d), baseDomain, true);
    SelectSnoc(SanitizeAll(domains), SanitizeHost(d), baseDomain, false);
  }

  // One host goes to the list it belongs to.
  method ClassifyHost(host: string, baseDomain: string, sub: seq<string>, custom: seq<string>)
    returns (sub': seq<string>, custom': seq<string>)
    ensures sub' == sub + (if IsSubdomain(host, baseDomain) then [host] else [])
    ensures custom' == custom + (if IsSubdomain(host, baseDomain) then [] else [host])
  {
    sub', custom' := sub, custom;
    if IsSubdomain(host, baseDomain) {
      sub' := sub' + [host];
    } else {
      custom' := custom' + [host];
    }
  }

  // The loop of UpdateIngressHosts.
  method Classify(hosts: seq<string>, baseDomain: string)
    returns (subdomainHosts: seq<string>, customHosts: seq<string>)
    ensures subdomainHosts == Select(SanitizeAll(hosts), baseDomain, true)
    ensures customHosts == Select(SanitizeAll(hosts), baseDomain, false)
  {
    subdomainHosts, customHosts := [], [];
    for i := 0 to |hosts|
      invariant subdomainHosts == Select(SanitizeAll(hosts[..i]), baseDomain, true)
      invariant customHosts == Select(SanitizeAll(hosts[..i]), baseDomain, false)
    {
      var h := SanitizeHost(hosts[i]);
      ghost var next := hosts[..i] + [hosts[i]];
      ClassifyNext(hosts[..i], baseDomain, hosts[i]);
      subdomainHosts, customHosts := ClassifyHost(h, baseDomain, subdomainHosts, customHosts);
      assert hosts[..i + 1] == next;
    }
    assert hosts[..|hosts|] == hosts;
  }

  // The loop of CreateOrUpdateIngress, which skips empty domains.
  method ClassifyDomains(domains: seq<string>, baseDomain: string)
    returns (allHosts: seq<string>, subdomainHosts: seq<string>, customHosts: seq<string>)
    ensures allHosts == SanitizeAll(NonEmpty(domains))
    ensures subdomainHosts == Select(allHosts, baseDomain, true)
    ensures customHosts == Select(allHosts, baseDomain, false)
  {
    allHosts, subdomainHosts, customHosts := [], [], [];
    for i := 0 to |domains|
      invariant allHosts == SanitizeAll(NonEmpty(domains[..i]))
      invariant subdomainHosts == Select(allHosts, baseDomain, true)
      invariant customHosts == Select(allHosts, baseDomain, false)
    {
      NonEmptySnoc(domains[..i], domains[i]);
      assert domains[..i + 1] == domains[..i] + [domains[i]];
      if domains[i] == "" {
        assert NonEmpty(domains[..i + 1]) == NonEmpty(domains[..i]);
        continue;
      }
      ClassifyNext(NonEmpty(domains[..i]), baseDomain, domains[i]);
      var host := SanitizeHost(domains[i]);
      allHosts := allHosts + [host];
      subdomainHosts, customHosts := ClassifyHost(host, baseDomain, subdomainHosts, customHosts);
    }
    assert domains[..|domains|] == domains;
  }

  // buildIngressRules
  method BuildRules(hosts: seq<string>) returns (rules: seq<string>)
    ensures rules == SanitizeAll(hosts)
  {
    rules := [];
    for i := 0 to |hosts|
      invariant rules == SanitizeAll(hosts[..i])
    {
      assert hosts[..i + 1] == hosts[..i] + [hosts[i]];
      SanitizeSnoc(hosts[..i], hosts[i]);
      rules := rules + [SanitizeHost(hosts[i])];
    }
    assert hosts[..|hosts|] == hosts;
  }

  // Ranging over a map visits each key once, in any order.
  method Enumerate(keys: set<string>) returns (hosts: seq<string>)
    ensures multiset(hosts) == multiset(keys) && Elements(hosts) == keys
  {
    hosts := [];
    var rest := keys;
    while rest != {}
      invariant rest <= keys
      invariant multiset(hosts) == multiset(keys - rest)
      decreases |rest|
    {
      var h :| h in rest;
      assert keys - (rest - {h}) == (keys - rest) + {h};
      hosts := hosts + [h];
      rest := rest - {h};
    }
    assert keys - rest == keys;
    assert forall h :: h in hosts <==> h in multiset(hosts);
  }

  // The rules that are not for the domain, in order.
  function Excluding(rules: seq<string>, domain: string): seq<string> {
    if rules == [] then []
    else
      var h := rules[|rules| - 1];
      Excluding(rules[..|rules| - 1], domain) + if h == domain then [] else [h]
  }

  lemma {:induction false} ExcludingHosts(rules: seq<string>, domain: string)
    ensures Elements(Excluding(rules, domain)) == Elements(rules) - {domain}
    ensures Excluding(rules, domain) == [] <==> Elements(rules) - {domain} == {}
    ensures forall h | h in Excluding(rules, domain) :: h in rules
  {
    if rules != [] {
      var front, h := rules[..|rules| - 1], rules[|rules| - 1];
      ExcludingHosts(front, domain);
      assert rules == front + [h];
      ElementsSnoc(front, h);
      ElementsSnoc(Excluding(front, domain), h);
    }
  }

  lemma ExcludingSnoc(rules: seq<string>, h: string, domain: string)
    ensures Excluding(rules + [h], domain) == Excluding(rules, domain) + if h == domain then [] else [h]
  {
    assert (rules + [h])[..|rules|] == rules;
  }

  // Removing a domain takes all of its rules, and no other; the others keep their order.
  lemma {:induction false} ExcludingCounts(rules: seq<string>, domain: string)
    ensures multiset(Excluding(rules, domain)) == multiset(rules)[domain := 0]
    decreases |rules|
  {
    if rules != [] {
      var front, h := rules[..|rules| - 1], rules[|rules| - 1];
      ExcludingCounts(front, domain);
      ExcludingSnoc(front, h, domain);
      assert rules == front + [h];
      assert multiset(rules) == multiset(front) + multiset{h};
    }
  }

  lemma ExcludingOneMore(before: seq<string>, front: seq<string>, h: string, domain: string)
    requires Excluding(before + front, domain) == Excluding(before, domain) + Excluding(front, domain)
    ensures Excluding(before + (front + [h]), domain) == Excluding(before, domain) + Excluding(front + [h], domain)
  {
    ExcludingSnoc(before + front, h, domain);
    ExcludingSnoc(front, h, domain);
    Regroup(before, front, [h]);
    Regroup(Excluding(before, domain), Excluding(front, domain), if h == domain then [] else [h]);
  }

  lemma Regroup(a: seq<string>, b: seq<string>, c: seq<string>)
    ensures a + (b + c) == (a + b) + c
  {
  }

  lemma {:induction false} ExcludingInOrder(before: seq<string>, after: seq<string>, domain: string)
    ensures Excluding(before + after, domain) == Excluding(before, domain) + Excluding(after, domain)
    decreases |after|
  {
    if after == [] {
      assert before + after == before;
    } else {
      var front, h := after[..|after| - 1], after[|after| - 1];
      ExcludingInOrder(before, front, domain);
      ExcludingOneMore(before, front, h, domain);
      assert after == front + [h];
    }
  }

  method Without(rules: seq<string>, domain: string) returns (hosts: seq<string>)
    ensures hosts == Excluding(rules, domain)
  {
    hosts := [];
    for i := 0 to |rules|
      invariant hosts == Excluding(rules[..i], domain)
    {
      assert rules[..i + 1][..i] == rules[..i];
      if rules[i] != domain {
        hosts := hosts + [rules[i]];
      }
    }
    assert rules[..|rules|] == rules;
  }

  // ---------------------------------------------------------------------
  // The ingresses of the cluster, edited in place
  // ---------------------------------------------------------------------

  // AddDomain and RemoveDomain read the ingress under the derived name, but UpdateIngressHosts
  // sanitizes that name once more before it writes.
  function EditedName(project: string): string {
    K8sName(K8sName(project))
  }

  type Named = map<string, Ingress>

  function HostsOf(m: Named, n: string): set<string> {
    if n in m then HostSet(m[n]) else {}
  }

  // Every ingress is the one built from its own rules.
  ghost predicate AllBuilt(m: Named, baseDomain: string) {
    forall n | n in m :: m[n] == BuildIngress(n, baseDomain, m[n].rules)
  }

  // Only the ingress called n may have changed.
  ghost predicate OnlyChanged(before: Named, after: Named, n: string) {
    && after.Keys == before.Keys
    && forall m | m in after && m != n :: after[m] == before[m]
  }

  // AddDomain reads the ingress called name and edits the one called target.  A domain that is
  // already a rule host changes nothing at all.  Otherwise target gets one rule for every host of
  // name and one for the new one, even when its sanitized form was there.
  ghost predicate Added(before: Named, after: Named, name: string, target: string, domain: string) {
    var hosts, d := HostsOf(before, name), SanitizeHost(domain);
    && OnlyChanged(before, after, target)
    && (if domain in hosts then after == before && d == domain
        else
          && target in after
          && HostsOf(after, target) == hosts + {d}
          && multiset(after[target].rules) == multiset(hosts) + multiset{d})
  }

  // RemoveDomain: exactly the rules of that host go, the others keep their order and repetitions,
  // and some are left.
  ghost predicate Removed(before: Named, after: Named, name: string, target: string, domain: string) {
    && OnlyChanged(before, after, target) && name in before && target in after
    && after[target].rules == Excluding(before[name].rules, domain)
    && HostsOf(after, target) == HostsOf(before, name) - {domain} != {}
  }

  lemma BuiltHosts(name: string, baseDomain: string, hosts: seq<string>)
    ensures BuildIngress(name, baseDomain, hosts).rules == SanitizeAll(hosts)
    ensures HostSet(BuildIngress(name, baseDomain, hosts)) == Elements(SanitizeAll(hosts))
  {
  }

  // The rules of a built ingress are sanitized already.
  lemma BuiltRules(name: string, baseDomain: string, i: Ingress)
    requires i == BuildIngress(name, baseDomain, i.rules)
    ensures SanitizeAll(i.rules) == i.rules && forall h | h in HostSet(i) :: SanitizeHost(h) == h
  {
    SanitizedAreFixed(i.rules);
  }

  lemma HostsAfterAdd(rules: seq<string>, hosts: seq<string>, domain: string)
    requires SanitizeAll(rules) == rules
    requires multiset(hosts) == multiset(Elements(rules)) && Elements(hosts) == Elements(rules)
    ensures Elements(SanitizeAll(hosts + [domain])) == Elements(rules) + {SanitizeHost(domain)}
    ensures multiset(SanitizeAll(hosts + [domain])) == multiset(Elements(rules)) + multiset{SanitizeHost(domain)}
  {
    forall h | h in hosts ensures h in rules { assert h in Elements(hosts); }
    DrawnFromFixed(hosts, rules);
    SanitizeSnoc(hosts, domain);
    ElementsSnoc(hosts, SanitizeHost(domain));
  }

  lemma AddingIs(before: Named, name: string, target: string, domain: string, built: Ingress)
    requires target in before && domain !in HostsOf(before, name)
    requires HostSet(built) == HostsOf(before, name) + {SanitizeHost(domain)}
    requires multiset(built.rules) == multiset(HostsOf(before, name)) + multiset{SanitizeHost(domain)}
    ensures Added(before, before[target := built], name, target, domain)
  {
  }

  lemma RemovingIs(before: Named, name: string, target: string, domain: string, built: Ingress)
    requires name in before && target in before && HostSet(built) == HostsOf(before, name) - {domain} != {}
    requires built.rules == Excluding(before[name].rules, domain)
    ensures Removed(before, before[target := built], name, target, domain)
  {
  }

  // A successful AddDomain gives the ingress called name the domain exactly when that is the one it
  // edits, or the sanitized domain was there.
  lemma AddedToOwn(before: Named, after: Named, name: string, target: string, domain: string)
    requires Added(before, after, name, target, domain)
    ensures HostsOf(after, name) == HostsOf(before, name) + {SanitizeHost(domain)}
            <==> target == name || SanitizeHost(domain) in HostsOf(before, name)
  {
    var hosts, d := HostsOf(before, name), SanitizeHost(domain);
    assert d in hosts ==> hosts + {d} == hosts;
    assert d in hosts + {d};
    assert target != name ==> HostsOf(after, name) == hosts;
  }

  lemma RemovedFromOwn(before: Named, after: Named, name: string, target: string, domain: string)
    requires Removed(before, after, name, target, domain)
    ensures HostsOf(after, name) == HostsOf(before, name) - {domain}
            <==> target == name || domain !in HostsOf(before, name)
  {
    var hosts := HostsOf(before, name);
    assert domain !in hosts ==> hosts - {domain} == hosts;
    assert domain !in hosts - {domain};
    assert target != name ==> HostsOf(after, name) == hosts;
  }

  // For a project that is the case exactly when its derived name fits in 63 bytes; otherwise the
  // edit goes to the ingress called by the name's first 63 bytes.
  lemma EditsOwnIngress(project: string)
    ensures EditedName(project) == K8sName(project) <==> |K8sName(project)| <= MAX_LABEL
    ensures EditedName(project) == DropTrailing(Take(K8sName(project), MAX_LABEL))
  {
    Idempotent(project);
    SanitizedTwice(project);
  }

  // Adding a new sanitized domain and removing it again restores the hosts of the ingress, unless
  // it had none: then the removal is refused.
  lemma RemoveUndoesAdd(m0: Named, m1: Named, m2: Named, name: string, target: string, domain: string)
    requires SanitizeHost(domain) == domain && domain !in HostsOf(m0, name)
    requires Added(m0, m1, name, target, domain)
    requires if HostsOf(m1, name) - {domain} == {} then m2 == m1 else Removed(m1, m2, name, target, domain)
    ensures HostsOf(m2, name) == HostsOf(m0, name) <==> target != name || HostsOf(m0, name) != {}
    ensures target == name && HostsOf(m0, name) == {} ==> HostsOf(m2, name) == {domain}
  {
    var hosts := HostsOf(m0, name);
    if target == name {
      assert HostsOf(m1, name) - {domain} == hosts;
      assert domain in hosts + {domain};
    }
  }

  class Ingresses {
    const baseDomain: string
    var byName: Named

    constructor (baseDomain: string)
      ensures Valid() && this.baseDomain == baseDomain && byName == map[]
    {
      this.baseDomain, byName := baseDomain, map[];
    }

    ghost predicate Valid()
      reads this
    {
      AllBuilt(byName, baseDomain)
    }

    // Every ingress these methods can leave is consistent.
    lemma ValidIsConsistent(n: string)
      requires Valid() && n in byName
      ensures Consistent(n, baseDomain, byName[n])
    {
      BuildIsConsistent(n, baseDomain, byName[n].rules);
    }

    // CreateOrUpdateIngress; `refused` is an error from the cluster.
    method CreateOrUpdateIngress(project: string, domains: seq<string>, refused: bool)
      returns (hosts: Option<seq<string>>)
      requires Valid()
      modifies this
      ensures Valid()
      ensures refused ==> byName == old(byName) && hosts.None?
      ensures !refused ==> hosts == Some(SanitizeAll(NonEmpty(domains)))
      ensures !refused ==>
                byName == old(byName)[K8sName(project) := BuildIngress(K8sName(project), baseDomain, NonEmpty(domains))]
    {
      var name := K8sName(project);
      var allHosts, subdomainHosts, customHosts := ClassifyDomains(domains, baseDomain);
      if refused {
        return None;
      }
      var rules := BuildRules(allHosts);
      SanitizeAllTwice(NonEmpty(domains));
      byName := byName[name := Ingress(rules, BuildTls(name, subdomainHosts, customHosts), customHosts != [])];
      return Some(allHosts);
    }

    // UpdateIngressHosts, past its sanitizing of the name: edits the rules, the TLS entries and the
    // annotation of the fetched ingress.
    method UpdateHosts(name: string, hosts: seq<string>, refused: bool) returns (ok: bool)
      requires Valid()
      modifies this
      ensures Valid()
      ensures ok <==> !refused && name in old(byName)
      ensures byName == if ok then old(byName)[name := BuildIngress(name, baseDomain, hosts)] else old(byName)
    {
      if refused || name !in byName {
        return false;
      }
      var subdomainHosts, customHosts := Classify(hosts, baseDomain);
      var rules := BuildRules(hosts);
      var edited := byName[name].(rules := rules, tls := BuildTls(name, subdomainHosts, customHosts));
      edited := edited.(issuer := customHosts != []);
      byName := byName[name := edited];
      SanitizeAllTwice(hosts);
      return true;
    }

    method UpdateIngressHosts(appName: string, hosts: seq<string>, refused: bool) returns (ok: bool)
      requires Valid()
      modifies this
      ensures Valid() && OnlyChanged(old(byName), byName, K8sName(appName))
      ensures ok <==> !refused && K8sName(appName) in old(byName)
      ensures !ok ==> byName == old(byName)
      ensures ok ==> byName[K8sName(appName)] == BuildIngress(K8sName(appName), baseDomain, hosts)
    {
      ok := UpdateHosts(K8sName(appName), hosts, refused);
    }

    // The map of existing hosts and, unless the domain is among them, the update.
    method AddHost(name: string, target: string, domain: string, refused: bool, refusedWrite: bool)
      returns (ok: bool)
      requires Valid()
      modifies this
      ensures Valid()
      ensures ok <==> !refused && name in old(byName)
                      && (domain in HostsOf(old(byName), name) || (!refusedWrite && target in old(byName)))
      ensures if ok then Added(old(byName), byName, name, target, domain) else byName == old(byName)
    {
      if refused || name !in byName {
        return false;
      }
      var existing := byName[name];
      BuiltRules(name, baseDomain, existing);
      var existingHosts := HostSet(existing);
      if domain in existingHosts {
        return true;
      }
      var hosts := Enumerate(existingHosts);
      HostsAfterAdd(existing.rules, hosts, domain);
      BuiltHosts(target, baseDomain, hosts + [domain]);
      if target in byName {
        AddingIs(byName, name, target, domain, BuildIngress(target, baseDomain, hosts + [domain]));
      }
      ok := UpdateHosts(target, hosts + [domain], refusedWrite);
    }

    method LeftOver(name: string, existing: Ingress, domain: string) returns (hosts: seq<string>)
      requires existing == BuildIngress(name, baseDomain, existing.rules)
      ensures hosts == Excluding(existing.rules, domain)
      ensures SanitizeAll(hosts) == hosts && Elements(hosts) == HostSet(existing) - {domain}
      ensures hosts == [] <==> HostSet(existing) - {domain} == {}
    {
      BuiltRules(name, baseDomain, existing);
      hosts := Without(existing.rules, domain);
      ExcludingHosts(existing.rules, domain);
      DrawnFromFixed(hosts, existing.rules);
    }

    method RemoveHost(name: string, target: string, domain: string, refused: bool, refusedWrite: bool)
      returns (ok: bool)
      requires Valid()
      modifies this
      ensures Valid()
      ensures ok <==> !refused && HostsOf(old(byName), name) - {domain} != {} && !refusedWrite && target in old(byName)
      ensures if ok then Removed(old(byName), byName, name, target, domain) else byName == old(byName)
    {
      if refused || name !in byName {
        return false;
      }
      var existing := byName[name];
      var hosts := LeftOver(name, existing, domain);
      if |hosts| == 0 {
        return false;
      }
      BuiltHosts(target, baseDomain, hosts);
      if target in byName {
        RemovingIs(byName, name, target, domain, BuildIngress(target, baseDomain, hosts));
      }
      ok := UpdateHosts(target, hosts, refusedWrite);
    }

    method AddDomain(project: string, domain: string, refused: bool, refusedWrite: bool) returns (ok: bool)
      requires Valid()
      modifies this
      ensures Valid()
      ensures ok <==> !refused && K8sName(project) in old(byName)
                      && (domain in HostsOf(old(byName), K8sName(project))
                          || (!refusedWrite && EditedName(project) in old(byName)))
      ensures if ok then Added(old(byName), byName, K8sName(project), EditedName(project), domain)
              else byName == old(byName)
    {
      var name := K8sName(project);
      ok := AddHost(name, K8sName(name), domain, refused, refusedWrite);
    }

    method RemoveDomain(project: string, domain: string, refused: bool, refusedWrite: bool) returns (ok: bool)
      requires Valid()
      modifies this
      ensures Valid()
      ensures ok <==> !refused && HostsOf(old(byName), K8sName(project)) - {domain} != {}
                      && !refusedWrite && EditedName(project) in old(byName)
      ensures if ok then Removed(old(byName), byName, K8sName(project), EditedName(project), domain)
              else byName == old(byName)
    {
      var name := K8sName(project);
      ok := RemoveHost(name, K8sName(name), domain, refused, refusedWrite);
    }
  }

  lemma EmptyDomains()
    ensures NonEmpty([""]) == [] && SanitizeAll([]) == [] && SanitizeHost("d") == "d" && K8sName("app") == "app"
  {
    CleanName("app");
    assert NonEmpty([""]) == NonEmpty([]) + [];
  }

  method DeployWithoutDomains() returns (c: Ingresses)
    ensures fresh(c) && c.Valid() && "app" in c.byName && HostsOf(c.byName, "app") == {}
  {
    EmptyDomains();
    c := new Ingresses("base");
    var _ := c.CreateOrUpdateIngress("app", [""], false);
    BuiltHosts("app", "base", []);
  }

  // The only domain of an ingress cannot be removed.
  method KeepsOnlyDomain(c: Ingresses, name: string, domain: string) returns (removed: bool)
    requires c.Valid() && HostsOf(c.byName, name) == {domain}
    modifies c
    ensures c.Valid() && !removed && c.byName == old(c.byName)
  {
    assert HostsOf(c.byName, name) - {domain} == {};
    removed := c.RemoveHost(name, name, domain, false, false);
  }

  lemma FirstHost(before: Named, after: Named, name: string, domain: string)
    requires Added(before, after, name, name, domain) && HostsOf(before, name) == {} && SanitizeHost(domain) == domain
    ensures HostsOf(after, name) == {domain}
  {
    assert {} + {domain} == {domain};
  }

  method AddFirstDomain(c: Ingresses, name: string, domain: string)
    requires c.Valid() && name in c.byName && HostsOf(c.byName, name) == {} && SanitizeHost(domain) == domain
    modifies c
    ensures c.Valid() && HostsOf(c.byName, name) == {domain}
  {
    ghost var before := c.byName;
    var _ := c.AddHost(name, name, domain, false, false);
    FirstHost(before, c.byName, name, domain);
  }

  // A project deployed with nothing but empty domains: the domain added to it cannot be removed.
  method EmptyIngressKeepsDomain() returns (c: Ingresses, removed: bool)
    ensures c.Valid() && HostsOf(c.byName, "app") == {"d"} && !removed
  {
    EmptyDomains();
    c := DeployWithoutDomains();
    AddFirstDomain(c, "app", "d");
    removed := KeepsOnlyDomain(c, "app", "d");
  }
}
