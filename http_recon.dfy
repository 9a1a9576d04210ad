/**
 * One target of `http-recon` (crates/http-recon/src/main.rs): an input line
 * `<fqdn> <ip>` becomes a HEAD request over HTTP and one over HTTPS to the
 * address, with the name as `Host` header. Answers are printed and kept in
 * the `http-recon` and `https-recon` tables, where the first row stored for
 * a name stays.
 */
module HttpRecon {
  import opened Wrappers
  import opened Text
  import opened Grimoire
  import HttpHeaders

  // ---------------------------------------------------------------------
  // Input lines
  // ---------------------------------------------------------------------

  /** A name and the address to ask about it. */
  datatype Target = Target(fqdn: Fqdn, ip: IpAddr)

  /** The `Error` enum of the binary, without the line-codec case. */
  datatype InputError = InputSplit | FqdnError(fqdn: ParseFqdnError) | IpError(ip: AddrParseError)

  /**
   * The line parser of `main`: `split_once(' ')`, then `Fqdn::from_str` on
   * the text before the space and `IpAddr::from_str` on all of the rest.
   */
  function ParseTarget(line: string, strict: bool, parseIp: IpParser): (r: Result<Target, InputError>)
    ensures r == Err(InputSplit) <==> Lacks(line, ' ')
    ensures r.Ok? ==>
      && WellFormed(r.value.fqdn, strict)
      && |Display(r.value.fqdn)| < |line|
      && line == Display(r.value.fqdn) + " " + line[|Display(r.value.fqdn)| + 1..]
      && parseIp(line[|Display(r.value.fqdn)| + 1..]) == Ok(r.value.ip)
    ensures r.Err? && r.error.FqdnError? ==>
      SplitOnce(line, ' ').Some? && ParseFqdn(SplitOnce(line, ' ').value.0, strict).Err?
    ensures r.Err? && r.error.IpError? ==>
      SplitOnce(line, ' ').Some? && parseIp(SplitOnce(line, ' ').value.1).Err?
  {
    match SplitOnce(line, ' ')
    case None => Err(InputSplit)
    case Some((name, rest)) =>
      match ParseFqdn(name, strict)
      case Err(e) => Err(FqdnError(e))
      case Ok(fqdn) =>
        match parseIp(rest)
        case Err(e) => Err(IpError(e))
        case Ok(ip) =>
          assert line[|name| + 1..] == rest;
          Ok(Target(fqdn, ip))
  }

  /** A line made of a name, one space and an address text reads back as that target. */
  lemma {:induction false} TargetLineRoundTrip(t: Target, strict: bool, parseIp: IpParser, ipText: string)
    requires WellFormed(t.fqdn, strict)
    requires parseIp(ipText) == Ok(t.ip)
    ensures ParseTarget(Display(t.fqdn) + " " + ipText, strict, parseIp) == Ok(t)
  {
    DisplayLacksSpace(t.fqdn, strict);
    SplitOnceAt(Display(t.fqdn), ipText, ' ');
    DisplayParses(t.fqdn, strict);
  }

  // ---------------------------------------------------------------------
  // Probe URLs
  // ---------------------------------------------------------------------

  datatype Scheme = Http | Https

  function SchemeText(s: Scheme): string {
    match s
    case Http => "http"
    case Https => "https"
  }

  /** A parsed `Url` without a path: its scheme and its authority (host, and port if any). */
  datatype Url = Url(scheme: Scheme, authority: string)

  /** The two ways `Url::parse` rejects the authority of an address. */
  datatype UrlParseError = EmptyHost | InvalidPort

  /** `Url::to_string`: an empty path is written as `/`. */
  function UrlText(u: Url): string {
    SchemeText(u.scheme) + "://" + u.authority + "/"
  }

  predicate AllDigits(s: string) {
    forall k :: 0 <= k < |s| ==> '0' <= s[k] <= '9'
  }

  /** An IPv6 literal in brackets. */
  predicate Bracketed(a: string) {
    |a| >= 2 && a[0] == '[' && a[|a| - 1] == ']'
  }

  /**
   * `Url::parse` of `<scheme>://<authority>` as far as address text goes: a
   * bracketed authority is an IPv6 host; otherwise the host ends at the
   * first `:` and must not be empty, and what follows must be a decimal port.
   */
  function ParseUrl(scheme: Scheme, authority: string): (r: Result<Url, UrlParseError>)
    ensures r.Ok? ==> r.value == Url(scheme, authority)
    ensures Bracketed(authority) || (|authority| > 0 && Lacks(authority, ':') && authority[0] != '[') ==> r.Ok?
    ensures r.Err? ==> !Bracketed(authority) && (|authority| == 0 || !Lacks(authority, ':'))
  {
    if Bracketed(authority) then Ok(Url(scheme, authority))
    else
      match SplitOnce(authority, ':')
      case None => if |authority| == 0 then Err(EmptyHost) else Ok(Url(scheme, authority))
      case Some((host, port)) =>
        if |host| == 0 then Err(EmptyHost)
        else if AllDigits(port) then Ok(Url(scheme, authority))
        else Err(InvalidPort)
  }

  predicate IsHexDigit(c: char) {
    '0' <= c <= '9' || 'a' <= c <= 'f' || 'A' <= c <= 'F'
  }

  /**
   * What `Display for IpAddr` writes: dotted decimal for IPv4; hexadecimal
   * groups (an embedded IPv4 tail included) with at least two `:` for IPv6.
   */
  predicate CanonicalText(ip: IpAddr) {
    match ip.family
    case V4 =>
      |ip.text| > 0 && forall k :: 0 <= k < |ip.text| ==> '0' <= ip.text[k] <= '9' || ip.text[k] == '.'
    case V6 =>
      && (forall k :: 0 <= k < |ip.text| ==> IsHexDigit(ip.text[k]) || ip.text[k] == ':' || ip.text[k] == '.')
      && exists i, j :: 0 <= i < j < |ip.text| && ip.text[i] == ':' && ip.text[j] == ':'
  }

  /** `Url::parse(&format!("{scheme}://{ip}"))` as written: the address text goes in unbracketed. */
  function ProbeUrlAsWritten(scheme: Scheme, ip: IpAddr): Result<Url, UrlParseError> {
    ParseUrl(scheme, ip.text)
  }

  /** Every IPv6 address makes the URL as written fail to parse. */
  lemma {:induction false} ProbeUrlAsWrittenRejectsV6(scheme: Scheme, ip: IpAddr)
    requires CanonicalText(ip) && ip.family == V6
    ensures ProbeUrlAsWritten(scheme, ip).Err?
  {
    var t := ip.text;
    var i, j :| 0 <= i < j < |t| && t[i] == ':' && t[j] == ':';
    assert !Bracketed(t) by {
      assert IsHexDigit(t[0]) || t[0] == ':' || t[0] == '.';
    }
    SplitOnceKeepsSecond(t, ':', i, j);
    var port := SplitOnce(t, ':').value.1;
    var k :| 0 <= k < |port| && port[k] == ':';
    assert !AllDigits(port);
  }

  /** The address from the usual documentation prefix shows the failure. */
  lemma ProbeUrlAsWrittenExample()
    ensures ProbeUrlAsWritten(Http, IpAddr(V6, "2001:db8::1")).Err?
  {
    var ip := IpAddr(V6, "2001:db8::1");
    assert ip.text[4] == ':' && ip.text[8] == ':';
    ProbeUrlAsWrittenRejectsV6(Http, ip);
  }

  /** The host part of a probe URL: an IPv6 address in brackets, an IPv4 address as is. */
  function HostText(ip: IpAddr): string {
    match ip.family
    case V4 => ip.text
    case V6 => "[" + ip.text + "]"
  }

  /** The probe URL, corrected: `{scheme}://{host}` with the address bracketed when it is IPv6. */
  function ProbeUrl(scheme: Scheme, ip: IpAddr): (r: Result<Url, UrlParseError>)
    ensures CanonicalText(ip) ==> r == Ok(Url(scheme, HostText(ip)))
    ensures ip.family == V4 ==> r == ProbeUrlAsWritten(scheme, ip)
  {
    assert CanonicalText(ip) && ip.family == V4 ==> Lacks(ip.text, ':') && ip.text[0] != '[';
    ParseUrl(scheme, HostText(ip))
  }

  // ---------------------------------------------------------------------
  // The recon tables
  // ---------------------------------------------------------------------

  /** A row of `http-recon` or `https-recon`, without the generated `id`. */
  datatype HttpRow = HttpRow(fqdn: string, url: string, status: nat, headers: map<string, seq<string>>, domain: string)

  /** Both tables, each keyed by the name its rows are about. */
  datatype Tables = Tables(http: map<string, HttpRow>, https: map<string, HttpRow>)

  function Table(t: Tables, s: Scheme): map<string, HttpRow> {
    match s
    case Http => t.http
    case Https => t.https
  }

  function WithTable(t: Tables, s: Scheme, m: map<string, HttpRow>): (r: Tables)
    ensures Table(r, s) == m
    ensures s == Http ==> r.https == t.https
    ensures s == Https ==> r.http == t.http
  {
    match s
    case Http => t.(http := m)
    case Https => t.(https := m)
  }

  /** Every row sits under the name it is about. */
  predicate KeyedByName(m: map<string, HttpRow>) {
    forall k :: k in m ==> m[k].fqdn == k
  }

  /**
   * The values of the `INSERT`: the name, the URL text, the status, the
   * header map (`{}` when there is none) and the domain.
   */
  function NewRow(fqdn: Fqdn, url: Url, status: nat, headers: Option<map<string, seq<string>>>): HttpRow
    requires |fqdn.labels| >= 2
  {
    HttpRow(Display(fqdn), UrlText(url), status, if headers.Some? then headers.value else map[], Domain(fqdn))
  }

  /**
   * `submit_http(s)_recon_results` when both statements succeed: a row is
   * inserted only when the table has none for the name.
   */
  function Submitted(m: map<string, HttpRow>, row: HttpRow): (m': map<string, HttpRow>)
    ensures m'.Keys == m.Keys + {row.fqdn}
    ensures forall k :: k in m ==> m'[k] == m[k]
    ensures row.fqdn !in m ==> m'[row.fqdn] == row
    ensures KeyedByName(m) ==> KeyedByName(m')
  {
    if row.fqdn in m then m else m[row.fqdn := row]
  }

  /** A second submission for a name leaves the table as the first one left it. */
  lemma {:induction false} FirstWriterWins(m: map<string, HttpRow>, first: HttpRow, second: HttpRow)
    requires first.fqdn == second.fqdn
    ensures Submitted(Submitted(m, first), second) == Submitted(m, first)
  {
  }

  /** `is_fqdn_in_http_recon_db`: whether each table has a row; a failed query reads as none. */
  function KnownIn(t: Tables, fqdn: Fqdn, queryOk: bool): (r: (bool, bool))
    ensures r.0 <==> queryOk && Display(fqdn) in t.http
    ensures r.1 <==> queryOk && Display(fqdn) in t.https
  {
    if queryOk then (Display(fqdn) in t.http, Display(fqdn) in t.https) else (false, false)
  }

  /** The recon database as far as `http-recon` uses it. */
  class HttpStore {
    var http: map<string, HttpRow>
    var https: map<string, HttpRow>

    function Contents(): Tables
      reads this
    {
      Tables(http, https)
    }

    constructor()
      ensures Contents() == Tables(map[], map[])
    {
      http := map[];
      https := map[];
    }

    /** `is_fqdn_in_http_recon_db`; `queryOk` is whether the query succeeds. */
    method Known(fqdn: Fqdn, queryOk: bool) returns (inHttp: bool, inHttps: bool)
      ensures (inHttp, inHttps) == KnownIn(Contents(), fqdn, queryOk)
    {
      inHttp := false;
      inHttps := false;
      if queryOk {
        var name := Display(fqdn);
        inHttp := name in http;
        inHttps := name in https;
      }
    }

    /**
     * `submit_http_recon_results` / `submit_https_recon_results`: a count
     * query, then an insert unless a row exists. `ok` is whether both
     * statements succeed; a failure changes nothing and is returned.
     */
    method Submit(scheme: Scheme, fqdn: Fqdn, url: Url, status: nat, headers: Option<map<string, seq<string>>>, ok: bool)
      returns (r: Result<(), ReconError>)
      requires |fqdn.labels| >= 2
      modifies this
      ensures ok ==> r == Ok(())
      ensures ok ==>
        Contents() == WithTable(old(Contents()), scheme, Submitted(Table(old(Contents()), scheme), NewRow(fqdn, url, status, headers)))
      ensures !ok ==> r == Err(StoreError) && Contents() == old(Contents())
    {
      if !ok {
        return Err(StoreError);
      }
      var name := Display(fqdn);
      match scheme {
        case Http =>
          if name !in http {
            http := http[name := NewRow(fqdn, url, status, headers)];
          }
        case Https =>
          if name !in https {
            https := https[name := NewRow(fqdn, url, status, headers)];
          }
      }
      r := Ok(());
    }
  }

  // ---------------------------------------------------------------------
  // recon_http
  // ---------------------------------------------------------------------

  /** A response: its status code and its headers in the order `HeaderMap::iter` yields them. */
  datatype Reply = Reply(status: nat, headers: seq<HttpHeaders.Header>)

  /** What `client.execute` gives for one request. */
  datatype Outcome = Responded(reply: Reply) | RequestFailed

  /** What the network and the database do while one target is handled. */
  datatype LineEnv = LineEnv(
    knownQueryOk: bool,
    httpOutcome: Outcome, httpStoreOk: bool,
    httpsOutcome: Outcome, httpsStoreOk: bool)

  /**
   * The options that matter here: a database is configured,
   * `--query-known-fqdns`, `--quiet`, and the `strict-fqdn-validation`
   * feature. `corrected` picks the program with the repairs of the
   * findings (bracketed IPv6 URLs, unparsable cookies blanked); off, the
   * model follows the code as written.
   */
  datatype Config = Config(storage: bool, queryKnown: bool, quiet: bool, strict: bool, corrected: bool)

  /** A printed line: name, address, URL, status and the header map. */
  datatype ProbeLine = ProbeLine(fqdn: string, ip: string, url: string, status: nat, headers: map<string, seq<string>>)

  /**
   * Why `recon_http` stops: `Url::parse` failed, a database statement
   * failed, or `expect` panicked on a cookie. The panic is not returned in
   * the source but unwinds through `main`; either way the run ends there.
   */
  datatype ReconError = UrlError(url: UrlParseError) | StoreError | Panic

  /** The tables after a step, the lines it printed and what it returned. */
  datatype Recon = Recon(tables: Tables, lines: seq<ProbeLine>, result: Result<(), ReconError>)

  /** The probe URL of the program as written or as corrected. */
  function UrlFor(corrected: bool, scheme: Scheme, ip: IpAddr): Result<Url, UrlParseError> {
    if corrected then ProbeUrl(scheme, ip) else ProbeUrlAsWritten(scheme, ip)
  }

  /** `AnonymizedHttpHeaders::from` as written (`None`: it panics) or as corrected. */
  function HeadersFor(corrected: bool, wire: seq<HttpHeaders.Header>): Option<map<string, seq<string>>> {
    if corrected then Some(HttpHeaders.Grouped(wire)) else HttpHeaders.GroupedAsWritten(wire)
  }

  /** After `lines` are printed: the submit of the row, when there is a store. */
  function Stored(t: Tables, cfg: Config, scheme: Scheme, target: Target, url: Url, status: nat,
                  headers: Option<map<string, seq<string>>>, storeOk: bool, lines: seq<ProbeLine>): Recon
    requires |target.fqdn.labels| >= 2
  {
    if !cfg.storage then Recon(t, lines, Ok(()))
    else if !storeOk then Recon(t, lines, Err(StoreError))
    else Recon(WithTable(t, scheme, Submitted(Table(t, scheme), NewRow(target.fqdn, url, status, headers))), lines, Ok(()))
  }

  /**
   * One of the two blocks of `recon_http`, for `scheme`: the URL, the
   * request, then for an answer the header map, the line and the row, and
   * for a failed request a row with status 0 and no headers.
   */
  function ProbeSpec(t: Tables, cfg: Config, scheme: Scheme, target: Target, outcome: Outcome, storeOk: bool): Recon
    requires |target.fqdn.labels| >= 2
  {
    match UrlFor(cfg.corrected, scheme, target.ip)
    case Err(e) => Recon(t, [], Err(UrlError(e)))
    case Ok(url) =>
      match outcome
      case RequestFailed => Stored(t, cfg, scheme, target, url, 0, None, storeOk, [])
      case Responded(reply) =>
        match HeadersFor(cfg.corrected, reply.headers)
        case None => Recon(t, [], Err(Panic))
        case Some(headers) =>
          var lines :=
            if cfg.quiet then []
            else [ProbeLine(Display(target.fqdn), target.ip.text, UrlText(url), reply.status, headers)];
          Stored(t, cfg, scheme, target, url, reply.status, Some(headers), storeOk, lines)
  }

  /** What `is_fqdn_in_http_recon_db` answers, `(false, false)` without a store. */
  function KnownFor(t: Tables, cfg: Config, target: Target, env: LineEnv): (r: (bool, bool))
    ensures r.0 <==> cfg.storage && env.knownQueryOk && Display(target.fqdn) in t.http
    ensures r.1 <==> cfg.storage && env.knownQueryOk && Display(target.fqdn) in t.https
  {
    if cfg.storage then KnownIn(t, target.fqdn, env.knownQueryOk) else (false, false)
  }

  /** Whether a block of `recon_http` runs for a scheme. */
  function Probes(cfg: Config, known: bool): bool {
    cfg.queryKnown || !known
  }

  /** `recon_http`: the HTTP block, then, unless it failed, the HTTPS block. */
  function ReconSpec(t: Tables, cfg: Config, target: Target, env: LineEnv): Recon
    requires |target.fqdn.labels| >= 2
  {
    var known := KnownFor(t, cfg, target, env);
    var first :=
      if Probes(cfg, known.0) then ProbeSpec(t, cfg, Http, target, env.httpOutcome, env.httpStoreOk)
      else Recon(t, [], Ok(()));
    if first.result.Err? then first
    else
      var second :=
        if Probes(cfg, known.1) then ProbeSpec(first.tables, cfg, Https, target, env.httpsOutcome, env.httpsStoreOk)
        else Recon(first.tables, [], Ok(()));
      Recon(second.tables, first.lines + second.lines, second.result)
  }

  /** One block of `recon_http`: build the URL, send the request, print, store. */
  method ProbeScheme(store: HttpStore, cfg: Config, scheme: Scheme, target: Target, outcome: Outcome, storeOk: bool)
    returns (lines: seq<ProbeLine>, r: Result<(), ReconError>)
    requires |target.fqdn.labels| >= 2
    modifies store
    ensures Recon(store.Contents(), lines, r) == ProbeSpec(old(store.Contents()), cfg, scheme, target, outcome, storeOk)
  {
    var parsed := UrlFor(cfg.corrected, scheme, target.ip);
    if parsed.Err? {
      return [], Err(UrlError(parsed.error));
    }
    var url := parsed.value;
    lines := [];
    r := Ok(());
    match outcome
    case Responded(reply) =>
      var anonymized := HttpHeaders.AnonymizeHeaders(reply.headers, cfg.corrected);
      if anonymized.None? {
        return [], Err(Panic);
      }
      var headers := anonymized.value;
      if !cfg.quiet {
        lines := [ProbeLine(Display(target.fqdn), target.ip.text, UrlText(url), reply.status, headers)];
      }
      if cfg.storage {
        r := store.Submit(scheme, target.fqdn, url, reply.status, Some(headers), storeOk);
      }
    case RequestFailed =>
      if cfg.storage {
        r := store.Submit(scheme, target.fqdn, url, 0, None, storeOk);
      }
  }

  /** `recon_http` for one target. */
  method ReconHttp(store: HttpStore, cfg: Config, target: Target, env: LineEnv)
    returns (lines: seq<ProbeLine>, r: Result<(), ReconError>)
    requires |target.fqdn.labels| >= 2
    modifies store
    ensures Recon(store.Contents(), lines, r) == ReconSpec(old(store.Contents()), cfg, target, env)
  {
    var knownHttp, knownHttps := false, false;
    if cfg.storage {
      knownHttp, knownHttps := store.Known(target.fqdn, env.knownQueryOk);
    }
    lines := [];
    r := Ok(());
    if Probes(cfg, knownHttp) {
      lines, r := ProbeScheme(store, cfg, Http, target, env.httpOutcome, env.httpStoreOk);
      if r.Err? {
        return;
      }
    }
    if Probes(cfg, knownHttps) {
      var more;
      more, r := ProbeScheme(store, cfg, Https, target, env.httpsOutcome, env.httpsStoreOk);
      lines := lines + more;
    }
  }

  // ---------------------------------------------------------------------
  // What recon_http promises
  // ---------------------------------------------------------------------

  /** A name both tables already hold is not probed again unless known names are queried. */
  lemma KnownTargetNotProbed(t: Tables, cfg: Config, target: Target, env: LineEnv)
    requires |target.fqdn.labels| >= 2
    requires cfg.storage && !cfg.queryKnown && env.knownQueryOk
    requires Display(target.fqdn) in t.http && Display(target.fqdn) in t.https
    ensures ReconSpec(t, cfg, target, env) == Recon(t, [], Ok(()))
  {
  }

  /** A name only the HTTP table holds gets the HTTPS block alone. */
  lemma OnlyHttpKnownProbesHttps(t: Tables, cfg: Config, target: Target, env: LineEnv)
    requires |target.fqdn.labels| >= 2
    requires cfg.storage && !cfg.queryKnown && env.knownQueryOk
    requires Display(target.fqdn) in t.http && Display(target.fqdn) !in t.https
    ensures ReconSpec(t, cfg, target, env) == ProbeSpec(t, cfg, Https, target, env.httpsOutcome, env.httpsStoreOk)
  {
  }

  /** A name only the HTTPS table holds gets the HTTP block alone, whether it fails or not. */
  lemma OnlyHttpsKnownProbesHttp(t: Tables, cfg: Config, target: Target, env: LineEnv)
    requires |target.fqdn.labels| >= 2
    requires cfg.storage && !cfg.queryKnown && env.knownQueryOk
    requires Display(target.fqdn) !in t.http && Display(target.fqdn) in t.https
    ensures ReconSpec(t, cfg, target, env) == ProbeSpec(t, cfg, Http, target, env.httpOutcome, env.httpStoreOk)
  {
    var first := ProbeSpec(t, cfg, Http, target, env.httpOutcome, env.httpStoreOk);
    assert first.lines + [] == first.lines;
  }

  /** A failed lookup of known names reads as "unknown": both schemes are probed as with `--query-known-fqdns`. */
  lemma FailedLookupProbesBoth(t: Tables, cfg: Config, target: Target, env: LineEnv)
    requires |target.fqdn.labels| >= 2
    requires !env.knownQueryOk
    ensures ReconSpec(t, cfg, target, env) == ReconSpec(t, cfg.(queryKnown := true), target, env)
  {
    var cfg' := cfg.(queryKnown := true);
    assert KnownFor(t, cfg, target, env) == (false, false);
    var first := ProbeSpec(t, cfg, Http, target, env.httpOutcome, env.httpStoreOk);
    ProbeIgnoresQueryKnown(t, cfg, Http, target, env.httpOutcome, env.httpStoreOk);
    ProbeIgnoresQueryKnown(first.tables, cfg, Https, target, env.httpsOutcome, env.httpsStoreOk);
  }

  /** A block of `recon_http` does not read `--query-known-fqdns`. */
  lemma ProbeIgnoresQueryKnown(t: Tables, cfg: Config, scheme: Scheme, target: Target, outcome: Outcome, storeOk: bool)
    requires |target.fqdn.labels| >= 2
    ensures ProbeSpec(t, cfg, scheme, target, outcome, storeOk) == ProbeSpec(t, cfg.(queryKnown := true), scheme, target, outcome, storeOk)
  {
  }

  /** `t'` keeps every row of `t` and adds rows about `name` only. */
  predicate Extends(t: Tables, t': Tables, name: string) {
    && (forall k :: k in t.http ==> k in t'.http && t'.http[k] == t.http[k])
    && (forall k :: k in t.https ==> k in t'.https && t'.https[k] == t.https[k])
    && t'.http.Keys <= t.http.Keys + {name}
    && t'.https.Keys <= t.https.Keys + {name}
  }

  lemma ExtendsTransitive(t1: Tables, t2: Tables, t3: Tables, name: string)
    requires Extends(t1, t2, name) && Extends(t2, t3, name)
    ensures Extends(t1, t3, name)
  {
  }

  /** Rows already stored are never changed, and only rows about the target are added. */
  lemma {:induction false} ReconKeepsRows(t: Tables, cfg: Config, target: Target, env: LineEnv)
    requires |target.fqdn.labels| >= 2
    ensures Extends(t, ReconSpec(t, cfg, target, env).tables, Display(target.fqdn))
  {
    var name := Display(target.fqdn);
    var known := KnownFor(t, cfg, target, env);
    var first :=
      if Probes(cfg, known.0) then ProbeSpec(t, cfg, Http, target, env.httpOutcome, env.httpStoreOk)
      else Recon(t, [], Ok(()));
    if Probes(cfg, known.0) {
      ProbeKeepsRows(t, cfg, Http, target, env.httpOutcome, env.httpStoreOk);
    }
    assert Extends(t, first.tables, name);
    if first.result.Ok? && Probes(cfg, known.1) {
      ProbeKeepsRows(first.tables, cfg, Https, target, env.httpsOutcome, env.httpsStoreOk);
      ExtendsTransitive(t, first.tables, ProbeSpec(first.tables, cfg, Https, target, env.httpsOutcome, env.httpsStoreOk).tables, name);
    }
  }

  lemma {:induction false} ProbeKeepsRows(t: Tables, cfg: Config, scheme: Scheme, target: Target, outcome: Outcome, storeOk: bool)
    requires |target.fqdn.labels| >= 2
    ensures Extends(t, ProbeSpec(t, cfg, scheme, target, outcome, storeOk).tables, Display(target.fqdn))
  {
    match UrlFor(cfg.corrected, scheme, target.ip)
    case Err(_) =>
    case Ok(url) =>
      match outcome
      case RequestFailed => StoredExtends(t, cfg, scheme, target, url, 0, None, storeOk, []);
      case Responded(reply) =>
        match HeadersFor(cfg.corrected, reply.headers)
        case None =>
        case Some(headers) =>
          var lines := ProbeSpec(t, cfg, scheme, target, outcome, storeOk).lines;
          StoredExtends(t, cfg, scheme, target, url, reply.status, Some(headers), storeOk, lines);
  }

  /** Storing a row keeps every existing row and adds at most the target's name. */
  lemma StoredExtends(t: Tables, cfg: Config, scheme: Scheme, target: Target, url: Url, status: nat,
                      headers: Option<map<string, seq<string>>>, storeOk: bool, lines: seq<ProbeLine>)
    requires |target.fqdn.labels| >= 2
    ensures Extends(t, Stored(t, cfg, scheme, target, url, status, headers, storeOk, lines).tables, Display(target.fqdn))
  {
  }


  // ---------------------------------------------------------------------
  // Where the code as written and the corrected program agree
  // ---------------------------------------------------------------------

  /** A request that failed, or an answer whose `Set-Cookie` values all parse. */
  predicate CookiesParseIn(o: Outcome) {
    o.Responded? ==> HttpHeaders.CookiesParse(o.reply.headers)
  }

  /**
   * The target meets neither failure of the code as written (an IPv6
   * address, a cookie that does not parse), or the program is the
   * corrected one.
   */
  predicate Survives(cfg: Config, ip: IpAddr, env: LineEnv) {
    cfg.corrected || (ip.family == V4 && CookiesParseIn(env.httpOutcome) && CookiesParseIn(env.httpsOutcome))
  }

  /** Where the target survives, both programs build the bracketed-if-needed URL and the grouped headers. */
  lemma {:induction false} SurvivorsAgree(cfg: Config, scheme: Scheme, ip: IpAddr, env: LineEnv)
    requires CanonicalText(ip) && Survives(cfg, ip, env)
    ensures UrlFor(cfg.corrected, scheme, ip) == Ok(Url(scheme, HostText(ip)))
    ensures env.httpOutcome.Responded? ==>
      HeadersFor(cfg.corrected, env.httpOutcome.reply.headers) == Some(HttpHeaders.Grouped(env.httpOutcome.reply.headers))
    ensures env.httpsOutcome.Responded? ==>
      HeadersFor(cfg.corrected, env.httpsOutcome.reply.headers) == Some(HttpHeaders.Grouped(env.httpsOutcome.reply.headers))
  {
  }

  /**
   * As written, an IPv6 target fails `Url::parse` in the first block that
   * runs: `recon_http` returns that error with nothing printed or stored,
   * and succeeds only when neither block runs.
   */
  lemma {:induction false} V6TargetFailsAsWritten(t: Tables, cfg: Config, target: Target, env: LineEnv)
    requires |target.fqdn.labels| >= 2 && CanonicalText(target.ip) && target.ip.family == V6
    requires !cfg.corrected
    ensures var known := KnownFor(t, cfg, target, env); var r := ReconSpec(t, cfg, target, env);
      && r.tables == t && r.lines == []
      && (r.result.Err? <==> Probes(cfg, known.0) || Probes(cfg, known.1))
      && (r.result.Err? ==> r.result.error.UrlError?)
  {
    ProbeUrlAsWrittenRejectsV6(Http, target.ip);
    ProbeUrlAsWrittenRejectsV6(Https, target.ip);
  }

  /**
   * As written, an HTTP answer carrying a `Set-Cookie` value that does not
   * parse panics before its line is printed or anything is stored.
   */
  lemma {:induction false} BadCookiePanicsAsWritten(t: Tables, cfg: Config, target: Target, env: LineEnv)
    requires |target.fqdn.labels| >= 2 && CanonicalText(target.ip) && target.ip.family == V4
    requires !cfg.corrected && (!cfg.storage || cfg.queryKnown)
    requires env.httpOutcome.Responded? && !HttpHeaders.CookiesParse(env.httpOutcome.reply.headers)
    ensures ReconSpec(t, cfg, target, env) == Recon(t, [], Err(Panic))
  {
    assert ProbeUrl(Http, target.ip) == ProbeUrlAsWritten(Http, target.ip);
  }

  /**
   * With storage on and both statements succeeding, an unknown name probed
   * over a well-formed address ends up in the table of each scheme, with
   * the status and anonymised headers of the answer, or status 0 and no
   * headers when the request failed.
   */
  lemma {:induction false} ReconStoresAnswer(t: Tables, cfg: Config, target: Target, env: LineEnv)
    requires |target.fqdn.labels| >= 2 && CanonicalText(target.ip) && Survives(cfg, target.ip, env)
    requires cfg.storage && env.httpStoreOk && env.httpsStoreOk
    requires Display(target.fqdn) !in t.http && Display(target.fqdn) !in t.https
    ensures var r := ReconSpec(t, cfg, target, env);
      && r.result == Ok(())
      && r.tables.http[Display(target.fqdn)] == StoredRow(Http, target, env.httpOutcome)
      && r.tables.https[Display(target.fqdn)] == StoredRow(Https, target, env.httpsOutcome)
  {
    SurvivorsAgree(cfg, Http, target.ip, env);
    SurvivorsAgree(cfg, Https, target.ip, env);
    ProbeStoresAnswer(t, cfg, Http, target, env.httpOutcome, env.httpStoreOk);
    var first := ProbeSpec(t, cfg, Http, target, env.httpOutcome, env.httpStoreOk);
    ProbeStoresAnswer(first.tables, cfg, Https, target, env.httpsOutcome, env.httpsStoreOk);
  }

  /** One block alone stores its row for a name its table lacks and leaves the other table alone. */
  lemma ProbeStoresAnswer(t: Tables, cfg: Config, scheme: Scheme, target: Target, outcome: Outcome, storeOk: bool)
    requires |target.fqdn.labels| >= 2 && cfg.storage && storeOk
    requires Display(target.fqdn) !in Table(t, scheme)
    requires UrlFor(cfg.corrected, scheme, target.ip) == Ok(Url(scheme, HostText(target.ip)))
    requires outcome.Responded? ==> HeadersFor(cfg.corrected, outcome.reply.headers) == Some(HttpHeaders.Grouped(outcome.reply.headers))
    ensures var r := ProbeSpec(t, cfg, scheme, target, outcome, storeOk);
      && r.result == Ok(())
      && Table(r.tables, scheme)[Display(target.fqdn)] == StoredRow(scheme, target, outcome)
      && (scheme == Http ==> r.tables.https == t.https)
  {
  }

  /** The row a probe stores for an unknown name. */
  function StoredRow(scheme: Scheme, target: Target, outcome: Outcome): HttpRow
    requires |target.fqdn.labels| >= 2
  {
    match outcome
    case Responded(reply) =>
      NewRow(target.fqdn, Url(scheme, HostText(target.ip)), reply.status, Some(HttpHeaders.Grouped(reply.headers)))
    case RequestFailed =>
      NewRow(target.fqdn, Url(scheme, HostText(target.ip)), 0, None)
  }

  /**
   * Without a database nothing is stored, and nothing fails for a
   * well-formed address that survives the code as written; with `--quiet`
   * nothing is printed.
   */
  lemma ReconSideEffects(t: Tables, cfg: Config, target: Target, env: LineEnv)
    requires |target.fqdn.labels| >= 2
    ensures !cfg.storage ==> ReconSpec(t, cfg, target, env).tables == t
    ensures !cfg.storage && CanonicalText(target.ip) && Survives(cfg, target.ip, env) ==>
      ReconSpec(t, cfg, target, env).result == Ok(())
    ensures cfg.quiet ==> ReconSpec(t, cfg, target, env).lines == []
  {
    var known := KnownFor(t, cfg, target, env);
    if CanonicalText(target.ip) && Survives(cfg, target.ip, env) {
      SurvivorsAgree(cfg, Http, target.ip, env);
      SurvivorsAgree(cfg, Https, target.ip, env);
    }
    ProbeSideEffects(t, cfg, Http, target, env.httpOutcome, env.httpStoreOk);
    var first := ProbeSpec(t, cfg, Http, target, env.httpOutcome, env.httpStoreOk);
    ProbeSideEffects(first.tables, cfg, Https, target, env.httpsOutcome, env.httpsStoreOk);
  }

  /** One block alone: no store, no rows; `--quiet`, no lines; no store and nothing failing to build, no error. */
  lemma ProbeSideEffects(t: Tables, cfg: Config, scheme: Scheme, target: Target, outcome: Outcome, storeOk: bool)
    requires |target.fqdn.labels| >= 2
    ensures !cfg.storage ==> ProbeSpec(t, cfg, scheme, target, outcome, storeOk).tables == t
    ensures (&& !cfg.storage && UrlFor(cfg.corrected, scheme, target.ip).Ok?
             && (outcome.Responded? ==> HeadersFor(cfg.corrected, outcome.reply.headers).Some?)) ==>
      ProbeSpec(t, cfg, scheme, target, outcome, storeOk).result == Ok(())
    ensures cfg.quiet ==> ProbeSpec(t, cfg, scheme, target, outcome, storeOk).lines == []
  {
  }

  /**
   * When both schemes are probed, a line is printed for each that answered,
   * HTTP first; the line comes before the write, so a failed HTTPS write
   * does not take its line back.
   */
  lemma {:induction false} ReconPrintsAnswers(t: Tables, cfg: Config, target: Target, env: LineEnv)
    requires |target.fqdn.labels| >= 2 && CanonicalText(target.ip) && Survives(cfg, target.ip, env)
    requires !cfg.quiet && (!cfg.storage || cfg.queryKnown)
    requires !cfg.storage || env.httpStoreOk
    ensures ReconSpec(t, cfg, target, env).lines ==
      PrintedFor(Http, target, env.httpOutcome) + PrintedFor(Https, target, env.httpsOutcome)
  {
    SurvivorsAgree(cfg, Http, target.ip, env);
    SurvivorsAgree(cfg, Https, target.ip, env);
  }

  /** The line printed for an answer, none for a failed request. */
  function PrintedFor(scheme: Scheme, target: Target, outcome: Outcome): seq<ProbeLine> {
    match outcome
    case Responded(reply) =>
      [ProbeLine(Display(target.fqdn), target.ip.text, UrlText(Url(scheme, HostText(target.ip))), reply.status,
                 HttpHeaders.Grouped(reply.headers))]
    case RequestFailed => []
  }

  /**
   * A stored answer keeps every header name, and, since `HeaderMap::iter`
   * yields each name's values together, every value of each name in
   * order, anonymised.
   */
  lemma StoredRowHeaders(scheme: Scheme, target: Target, reply: Reply)
    requires |target.fqdn.labels| >= 2
    requires HttpHeaders.Contiguous(reply.headers)
    ensures var h := StoredRow(scheme, target, Responded(reply)).headers;
      && h.Keys == HttpHeaders.Names(reply.headers)
      && forall n :: n in h ==> h[n] == HttpHeaders.AnonymizeAll(n, HttpHeaders.ValuesOf(reply.headers, n))
  {
    HttpHeaders.GroupedKeys(reply.headers);
    HttpHeaders.GroupedAllValues(reply.headers);
  }
}
