/** Which registry credential a chart reference is offered. */
module Registry {
  import opened Wrappers

  /** A Helm secret: its kdex.dev/secret-type annotation and its data. */
  datatype Secret = Secret(
    kind: string, repository: string, username: string, password: string, plainHTTP: string, insecure: string)

  datatype Url = Url(host: string, path: string)

  /** What the registry client is built with. */
  datatype Binding = Binding(plainHTTP: bool, skipsVerification: bool, credential: Option<(string, string)>)

  datatype Failure = Unparseable | NoHost | ClientFailed

  predicate HasPrefix(s: string, prefix: string) {
    |prefix| <= |s| && s[..|prefix|] == prefix
  }

  /** Whether a reference belongs to a registry, both without scheme. */
  predicate RegistryMatches(reg: string, repo: string) {
    if repo == "" then false
    else if reg == repo then true
    else HasPrefix(reg, repo + "/")
  }

  // ---------------------------------------------------------------- path segments

  function Segments(s: string): (r: seq<string>)
    ensures |r| >= 1
  {
    if s == "" then [""]
    else
      var r := Segments(s[1..]);
      if s[0] == '/' then [""] + r else [[s[0]] + r[0]] + r[1..]
  }

  function Join(parts: seq<string>): string
    requires parts != []
  {
    if |parts| == 1 then parts[0] else parts[0] + "/" + Join(parts[1..])
  }

  lemma {:induction false} JoinSegments(s: string)
    ensures Join(Segments(s)) == s
    decreases |s|
  {
    if s != "" {
      var r := Segments(s[1..]);
      JoinSegments(s[1..]);
      if s[0] == '/' {
        assert ([""] + r)[1..] == r;
        assert s == "/" + s[1..];
      } else {
        var first := [s[0]] + r[0];
        assert ([first] + r[1..])[1..] == r[1..];
        if |r| > 1 {
          assert Join(Segments(s)) == first + "/" + Join(r[1..]);
          assert s[1..] == r[0] + "/" + Join(r[1..]);
        }
        assert s == [s[0]] + s[1..];
      }
    }
  }

  lemma {:induction false} JoinAppends(a: seq<string>, b: seq<string>)
    requires a != [] && b != []
    ensures Join(a + b) == Join(a) + "/" + Join(b)
    decreases |a|
  {
    assert (a + b)[0] == a[0] && (a + b)[1..] == a[1..] + b;
    if |a| > 1 {
      JoinAppends(a[1..], b);
      assert a[0] + "/" + (Join(a[1..]) + "/" + Join(b)) == (a[0] + "/" + Join(a[1..])) + "/" + Join(b);
    } else {
      assert a[1..] + b == b;
    }
  }

  lemma SegmentsOf(c: char, s: string)
    ensures var r := Segments(s);
            Segments([c] + s) == if c == '/' then [""] + r else [[c] + r[0]] + r[1..]
  {
    assert ([c] + s)[1..] == s;
  }

  lemma {:induction false} SegmentsAppend(a: string, b: string)
    ensures Segments(a + "/" + b) == Segments(a) + Segments(b)
    decreases |a|
  {
    if a == "" {
      SegmentsOf('/', b);
      assert a + "/" + b == ['/'] + b;
    } else {
      var t := a[1..] + "/" + b;
      SegmentsAppend(a[1..], b);
      SegmentsOf(a[0], t);
      SegmentsOf(a[0], a[1..]);
      assert a + "/" + b == [a[0]] + t && a == [a[0]] + a[1..];
      ConsParts(a[0], Segments(a[1..]), Segments(b));
    }
  }

  lemma ConsParts(c: char, r: seq<string>, q: seq<string>)
    requires r != []
    ensures [[c] + (r + q)[0]] + (r + q)[1..] == [[c] + r[0]] + r[1..] + q
    ensures [""] + (r + q) == [""] + r + q
  {
    assert (r + q)[1..] == r[1..] + q;
  }

  /** A reference matches a non-empty repository exactly when the repository's path segments start the
      reference's: a look-alike host or a longer segment never matches. */
  lemma MatchesBySegments(reg: string, repo: string)
    ensures RegistryMatches(reg, repo) <==> repo != "" && Segments(repo) <= Segments(reg)
  {
    if RegistryMatches(reg, repo) && reg != repo {
      var rest := reg[|repo| + 1..];
      assert reg == repo + "/" + rest;
      SegmentsAppend(repo, rest);
    }
    if repo != "" && Segments(repo) <= Segments(reg) {
      JoinSegments(repo);
      JoinSegments(reg);
      var rest := Segments(reg)[|Segments(repo)|..];
      assert Segments(reg) == Segments(repo) + rest;
      if rest == [] {
        assert Segments(reg) == Segments(repo);
      } else {
        JoinAppends(Segments(repo), rest);
        assert reg == (repo + "/") + Join(rest);
      }
    }
  }

  /** A match names one registry: of two matching repositories, one is the other or a path above it. */
  lemma MatchesNest(reg: string, a: string, b: string)
    requires RegistryMatches(reg, a) && RegistryMatches(reg, b)
    ensures RegistryMatches(a, b) || RegistryMatches(b, a)
  {
    MatchesBySegments(reg, a);
    MatchesBySegments(reg, b);
    MatchesBySegments(a, b);
    MatchesBySegments(b, a);
    var x, y, z := Segments(a), Segments(b), Segments(reg);
    if |x| <= |y| {
      assert x == z[..|x|] == z[..|y|][..|x|] == y[..|x|];
    } else {
      assert y == z[..|y|] == z[..|x|][..|y|] == x[..|y|];
    }
  }

  // ---------------------------------------------------------------- references

  /** strings.Index of the double slash, or -1. */
  function DoubleSlash(s: string): (i: int)
    ensures -1 <= i && (i >= 0 ==> i + 2 <= |s| && s[i..i + 2] == "//")
  {
    if |s| < 2 then -1
    else if s[0] == '/' && s[1] == '/' then 0
    else
      var i := DoubleSlash(s[1..]);
      if i < 0 then -1 else i + 1
  }

  /** The reference handed to the URL parser. */
  function Reference(chartName: string): (r: string)
    ensures HasPrefix(r, "//")
  {
    var cut := if DoubleSlash(chartName) >= 0 then chartName[DoubleSlash(chartName)..] else chartName;
    if HasPrefix(cut, "//") then cut else "//" + cut
  }

  function WithoutScheme(repo: string): string {
    if DoubleSlash(repo) >= 0 then repo[DoubleSlash(repo) + 2..] else repo
  }

  lemma {:induction false} SchemeEndsAtSlashes(scheme: string, rest: string)
    requires '/' !in scheme
    ensures DoubleSlash(scheme + "//" + rest) == |scheme|
    decreases |scheme|
  {
    var s := scheme + "//" + rest;
    if scheme != "" {
      assert s[1..] == scheme[1..] + "//" + rest;
      SchemeEndsAtSlashes(scheme[1..], rest);
      assert s[0] == scheme[0] && scheme[0] in scheme;
    }
  }

  /** Everything after the scheme is kept. Leaving the scheme out gives the same reference exactly when no
      double slash follows; otherwise the reference loses its host. */
  lemma SchemeIsIrrelevantIff(scheme: string, rest: string)
    requires '/' !in scheme
    ensures Reference(scheme + "//" + rest) == "//" + rest
    ensures WithoutScheme(scheme + "//" + rest) == rest
    ensures Reference(rest) == "//" + rest <==> DoubleSlash(rest) < 0
    ensures WithoutScheme(rest) == rest <==> DoubleSlash(rest) < 0
  {
    SchemeEndsAtSlashes(scheme, rest);
    var s := scheme + "//" + rest;
    assert s[|scheme|..] == "//" + rest && s[|scheme| + 2..] == rest;
    StartsWithSlashes(rest);
    if DoubleSlash(rest) >= 0 {
      assert |Reference(rest)| <= |rest|;
    }
  }

  lemma StartsWithSlashes(s: string)
    ensures HasPrefix(s, "//") <==> DoubleSlash(s) == 0
  {
  }

  predicate Offers(s: Secret, reg: string) {
    s.kind == "helm" && RegistryMatches(reg, WithoutScheme(s.repository))
  }

  function BindingFor(secret: Option<Secret>): Binding {
    match secret
    case None => Binding(false, false, None)
    case Some(s) =>
      Binding(s.plainHTTP == "true", s.plainHTTP == "true" || s.insecure == "true",
              if |s.username| > 0 && |s.password| > 0 then Some((s.username, s.password)) else None)
  }

  /** The secret is a Helm secret of a repository whose path segments start those of the reference. */
  predicate Covers(s: Secret, reg: string) {
    && s.kind == "helm" && WithoutScheme(s.repository) != ""
    && Segments(WithoutScheme(s.repository)) <= Segments(reg)
  }

  /** The binding that follows from the secret's own fields: plain HTTP and skipped verification as they say, and a
      credential exactly when both of its parts are there. */
  predicate BoundBy(b: Binding, s: Secret) {
    && (b.plainHTTP <==> s.plainHTTP == "true")
    && (b.skipsVerification <==> s.plainHTTP == "true" || s.insecure == "true")
    && (b.credential.Some? <==> s.username != "" && s.password != "")
    && (b.credential.Some? ==> b.credential.value == (s.username, s.password))
  }

  /** The first secret that covers the reference decides the binding; without one there is nothing to offer. */
  ghost predicate BindsFirst(secrets: seq<Secret>, reg: string, b: Binding) {
    || (exists i :: 0 <= i < |secrets| && Covers(secrets[i], reg) && BoundBy(b, secrets[i])
                    && forall j :: 0 <= j < i ==> !Covers(secrets[j], reg))
    || ((forall i :: 0 <= i < |secrets| ==> !Covers(secrets[i], reg))
        && !b.plainHTTP && !b.skipsVerification && b.credential == None)
  }

  lemma OffersInWords(secrets: seq<Secret>, reg: string)
    ensures forall i :: 0 <= i < |secrets| ==> (Offers(secrets[i], reg) <==> Covers(secrets[i], reg))
  {
    forall i | 0 <= i < |secrets|
      ensures Offers(secrets[i], reg) <==> Covers(secrets[i], reg)
    {
      MatchesBySegments(reg, WithoutScheme(secrets[i].repository));
    }
  }

  method FindSecret(secrets: seq<Secret>, reg: string) returns (found: Option<Secret>)
    ensures found.None? ==> forall i :: 0 <= i < |secrets| ==> !Offers(secrets[i], reg)
    ensures found.Some? ==> exists i :: 0 <= i < |secrets| && secrets[i] == found.value && Offers(secrets[i], reg)
                                        && forall j :: 0 <= j < i ==> !Offers(secrets[j], reg)
  {
    for i := 0 to |secrets|
      invariant forall j :: 0 <= j < i ==> !Offers(secrets[j], reg)
    {
      if Offers(secrets[i], reg) {
        return Some(secrets[i]);
      }
    }
    return None;
  }

  /** The registry side of a Helm client. */
  class HelmClient {
    const secrets: seq<Secret>
    var registryClient: Option<Binding>

    constructor (secrets: seq<Secret>)
      ensures this.secrets == secrets && registryClient == None
    {
      this.secrets, registryClient := secrets, None;
    }

    /** Binds the client to the registry of a chart. A credential is offered only to a registry whose path
        segments its repository starts; a failure leaves the client as it was. */
    method RegistryBind(chartName: string, parse: string -> Option<Url>, clientFails: bool)
      returns (failure: Option<Failure>)
      modifies this`registryClient
      ensures var url := parse(Reference(chartName));
              failure == if url.None? then Some(Unparseable)
                         else if url.value.host == "" then Some(NoHost)
                         else if clientFails then Some(ClientFailed) else None
      ensures failure.Some? ==> registryClient == old(registryClient)
      ensures failure.None? ==>
                var url := parse(Reference(chartName)).value;
                || (registryClient == Some(BindingFor(None))
                    && forall i :: 0 <= i < |secrets| ==> !Offers(secrets[i], url.host + url.path))
                || exists s ::
                     s in secrets && Offers(s, url.host + url.path) && registryClient == Some(BindingFor(Some(s)))
      ensures failure.None? ==>
                var url := parse(Reference(chartName)).value;
                BindsFirst(secrets, url.host + url.path, registryClient.value)
      ensures failure.None? && registryClient.value.credential.Some? ==>
                var url := parse(Reference(chartName)).value;
                exists s ::
                  && s in secrets && s.kind == "helm"
                  && registryClient.value.credential == Some((s.username, s.password))
                  && WithoutScheme(s.repository) != ""
                  && Segments(WithoutScheme(s.repository)) <= Segments(url.host + url.path)
    {
      var reg := chartName;
      if DoubleSlash(reg) > -1 {
        reg := reg[DoubleSlash(reg)..];
      }
      if !HasPrefix(reg, "//") {
        reg := "//" + reg;
      }
      var url := parse(reg);
      if url.None? {
        return Some(Unparseable);
      }
      if url.value.host == "" {
        return Some(NoHost);
      }
      reg := url.value.host + url.value.path;
      var found := FindSecret(secrets, reg);
      if clientFails {
        return Some(ClientFailed);
      }
      registryClient := Some(BindingFor(found));
      failure := None;
      OffersInWords(secrets, reg);
      if found.Some? {
        MatchesBySegments(reg, WithoutScheme(found.value.repository));
      }
    }
  }
}
