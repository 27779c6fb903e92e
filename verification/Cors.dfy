/**
 * The allocation-free subdomain test of the CORS origin list (src/cors.rs),
 * starting from parsed URLs. It is compared with its meaning on the
 * dot-separated labels of the two hosts.
 */
module Cors {
  import opened Common

  /** A parsed URL: `port` is the explicit or known default port. */
  datatype Url = Url(scheme: string, host: Option<string>, port: Option<nat>)

  function SaturatingSub(a: nat, b: nat): nat { if a >= b then a - b else 0 }

  predicate EndsWith(s: string, suffix: string) {
    |suffix| <= |s| && s[|s| - |suffix|..] == suffix
  }

  /** The host itself, or a longer host with a dot just before the suffix. */
  predicate HostMatches(host: string, domain: string) {
    host == domain
    || (var dotOffset := SaturatingSub(|host|, |domain| + 1);
        |host| > |domain| && EndsWith(host, domain) && dotOffset < |host| && host[dotOffset] == '.')
  }

  const WILDCARD: string := "wildcard."

  /** `pattern` is the parse of the pattern with its `*.` replaced by `wildcard.`, if it parses. */
  predicate MatchesSubdomainWildcard(pattern: Option<Url>, origin: Url) {
    if pattern.None? then false
    else if pattern.value.scheme != origin.scheme || pattern.value.port != origin.port then false
    else if pattern.value.host.None? || !(WILDCARD <= pattern.value.host.value) then false
    else
      var domain := pattern.value.host.value[|WILDCARD|..];
      domain != "" && HostMatches(if origin.host.Some? then origin.host.value else "", domain)
  }

  // ----- Labels -----

  /** The text between the dots; the empty string is one empty label. */
  function Labels(s: string): (r: seq<string>)
    ensures |r| > 0
  {
    if s == "" then [""]
    else
      var rest := Labels(s[1..]);
      if s[0] == '.' then [""] + rest else [[s[0]] + rest[0]] + rest[1..]
  }

  function Join(labels: seq<string>): string
    requires |labels| > 0
  {
    if |labels| == 1 then labels[0] else labels[0] + "." + Join(labels[1..])
  }

  predicate IsSuffix(suffix: seq<string>, labels: seq<string>) {
    |suffix| <= |labels| && labels[|labels| - |suffix|..] == suffix
  }

  lemma {:induction false} JoinOfLabels(s: string)
    ensures Join(Labels(s)) == s
  {
    if s != "" {
      var rest := Labels(s[1..]);
      JoinOfLabels(s[1..]);
      assert s == [s[0]] + s[1..];
      if s[0] == '.' {
        assert Labels(s)[1..] == rest;
      } else {
        assert Labels(s)[1..] == rest[1..];
      }
    }
  }

  lemma {:induction false} LabelsAcrossDot(a: string, b: string)
    ensures Labels(a + "." + b) == Labels(a) + Labels(b)
  {
    var s := a + "." + b;
    if a == "" {
      assert s[1..] == b;
    } else {
      assert s[1..] == a[1..] + "." + b;
      LabelsAcrossDot(a[1..], b);
    }
  }

  lemma {:induction false} JoinConcat(x: seq<string>, y: seq<string>)
    requires |x| > 0 && |y| > 0
    ensures Join(x + y) == Join(x) + "." + Join(y)
  {
    if |x| == 1 {
      assert (x + y)[1..] == y;
    } else {
      assert (x + y)[1..] == x[1..] + y;
      JoinConcat(x[1..], y);
    }
  }

  /** The index test accepts a host exactly when the domain's labels end the host's labels. */
  lemma HostMatchesIffLabelSuffix(host: string, domain: string)
    ensures HostMatches(host, domain) <==> IsSuffix(Labels(domain), Labels(host))
  {
    if HostMatches(host, domain) && host != domain {
      var k := |host| - |domain| - 1;
      assert host == host[..k] + "." + domain;
      LabelsAcrossDot(host[..k], domain);
    }
    if IsSuffix(Labels(domain), Labels(host)) {
      var before := Labels(host)[..|Labels(host)| - |Labels(domain)|];
      assert Labels(host) == before + Labels(domain);
      JoinOfLabels(host);
      JoinOfLabels(domain);
      if before == [] {
        assert Labels(host) == Labels(domain);
      } else {
        JoinConcat(before, Labels(domain));
        var head := Join(before);
        assert host == head + "." + domain;
        assert host[|head|] == '.' && host[|head| + 1..] == domain;
      }
    }
  }

  /** The pattern's host is the wildcard label before this domain. */
  predicate WildcardOf(pattern: Url, domain: string) {
    domain != "" && pattern.host == Some(WILDCARD + domain)
  }

  function HostOrEmpty(origin: Url): string { if origin.host.Some? then origin.host.value else "" }

  /**
   * The whole decision, for every pattern and origin: the pattern parses, scheme
   * and port agree, and the pattern is a wildcard over a non-empty domain whose
   * labels end the labels of the origin's host.
   */
  lemma WildcardMatchesIff(pattern: Option<Url>, origin: Url)
    ensures MatchesSubdomainWildcard(pattern, origin) <==>
              && pattern.Some? && pattern.value.scheme == origin.scheme && pattern.value.port == origin.port
              && exists domain ::
                   WildcardOf(pattern.value, domain) && IsSuffix(Labels(domain), Labels(HostOrEmpty(origin)))
  {
    if pattern.Some? && pattern.value.host.Some? {
      var host := pattern.value.host.value;
      if WILDCARD <= host {
        var domain := host[|WILDCARD|..];
        assert host == WILDCARD + domain;
        HostMatchesIffLabelSuffix(HostOrEmpty(origin), domain);
      }
      forall domain | WildcardOf(pattern.value, domain)
        ensures WILDCARD <= host && domain == host[|WILDCARD|..]
      {
        assert host[..|WILDCARD|] == WILDCARD;
      }
    }
    hide Labels, HostMatches;
  }
}
