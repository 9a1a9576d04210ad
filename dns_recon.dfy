/**
 * `dns-recon` (crates/dns-recon/src/main.rs): names read one per line are
 * resolved in input order; each answer is printed and merged into the
 * "dns-recon" table, whose address set for a name only ever grows.
 */
module DnsRecon {
  import opened Wrappers
  import opened Text
  import opened Grimoire

  // ---------------------------------------------------------------------
  // Addresses as stored: host networks
  // ---------------------------------------------------------------------

  /** An `ipnetwork::IpNetwork`: an address with a prefix length. */
  datatype IpNetwork = IpNetwork(addr: IpAddr, prefix: nat)

  /** Bits in an address of `family`: the prefix of a network holding one host. */
  function HostPrefix(family: IpFamily): nat {
    match family
    case V4 => 32
    case V6 => 128
  }

  /** `n` names its address alone. */
  predicate SingleHost(n: IpNetwork) {
    n.prefix == HostPrefix(n.addr.family)
  }

  /** `IpNetwork::new(ip, 32)`, as written: prefix 32 whatever the family. */
  function NetworkAsWritten(ip: IpAddr): IpNetwork {
    IpNetwork(ip, 32)
  }

  /** As written, an IPv4 address is stored as the host itself ... */
  lemma NetworkAsWrittenV4(ip: IpAddr)
    requires ip.family == V4
    ensures SingleHost(NetworkAsWritten(ip)) && NetworkAsWritten(ip) == HostNetwork(ip)
  {
  }

  /** ... but an IPv6 address becomes a /32 network spanning 2^96 addresses. */
  lemma NetworkAsWrittenWidensV6(ip: IpAddr)
    requires ip.family == V6
    ensures !SingleHost(NetworkAsWritten(ip))
    ensures HostPrefix(V6) - NetworkAsWritten(ip).prefix == 96
  {
  }

  /** The host network of `ip`: its address with the full prefix of its family. */
  function HostNetwork(ip: IpAddr): (n: IpNetwork)
    ensures n.addr == ip && SingleHost(n)
    ensures n.prefix <= 128
  {
    IpNetwork(ip, HostPrefix(ip.family))
  }

  /**
   * The network stored for `ip`: `IpNetwork::new(ip, 32)` as written, the
   * host network of its family in the corrected program.
   */
  function StoredNetwork(corrected: bool, ip: IpAddr): (n: IpNetwork)
    ensures n.addr == ip
    ensures corrected || ip.family == V4 ==> n == HostNetwork(ip)
    ensures !corrected && ip.family == V6 ==> n.prefix == 32 && !SingleHost(n)
  {
    if corrected then HostNetwork(ip) else NetworkAsWritten(ip)
  }

  /** The networks stored for the addresses `ips`. */
  function NetworkSet(corrected: bool, ips: seq<IpAddr>): (nets: set<IpNetwork>)
    ensures forall i :: 0 <= i < |ips| ==> StoredNetwork(corrected, ips[i]) in nets
    ensures forall n :: n in nets ==> n.addr in ips && n == StoredNetwork(corrected, n.addr)
    ensures |ips| == 0 ==> nets == {}
  {
    set ip | ip in ips :: StoredNetwork(corrected, ip)
  }

  /** The push loop of `submit_dns_recon_results`: one network per address, in order. */
  method ToNetworks(ips: seq<IpAddr>, corrected: bool) returns (nets: seq<IpNetwork>)
    ensures |nets| == |ips|
    ensures forall i :: 0 <= i < |ips| ==> nets[i] == StoredNetwork(corrected, ips[i])
    ensures forall n :: n in nets <==> n in NetworkSet(corrected, ips)
  {
    nets := [];
    var i := 0;
    while i < |ips|
      invariant 0 <= i <= |ips|
      invariant |nets| == i
      invariant forall j :: 0 <= j < i ==> nets[j] == StoredNetwork(corrected, ips[j])
    {
      nets := nets + [StoredNetwork(corrected, ips[i])];
      i := i + 1;
    }
    forall n | n in NetworkSet(corrected, ips) ensures n in nets {
      var j :| 0 <= j < |ips| && ips[j] == n.addr;
      assert nets[j] == n;
    }
  }

  // ---------------------------------------------------------------------
  // The "dns-recon" table
  // ---------------------------------------------------------------------

  /** A row: the name, its address set and its registered domain. */
  datatype DnsRow = DnsRow(fqdn: string, ips: set<IpNetwork>, domain: string)

  /** The addresses stored under `key`, none when there is no row. */
  function StoredIps(rows: map<string, DnsRow>, key: string): set<IpNetwork> {
    if key in rows then rows[key].ips else {}
  }

  /**
   * The `INSERT … ON CONFLICT … DO UPDATE` of `submit_dns_recon_results`:
   * a new name gets a row with `nets` and its domain; an existing row keeps
   * its name and domain and takes the union of its addresses and `nets`.
   */
  function Upserted(rows: map<string, DnsRow>, fqdn: Fqdn, nets: set<IpNetwork>): (rows': map<string, DnsRow>)
    requires |fqdn.labels| >= 2
    ensures rows'.Keys == rows.Keys + {Display(fqdn)}
    ensures forall k :: k in rows && k != Display(fqdn) ==> rows'[k] == rows[k]
    ensures rows'[Display(fqdn)].ips == StoredIps(rows, Display(fqdn)) + nets
    ensures Display(fqdn) in rows ==>
      rows'[Display(fqdn)].fqdn == rows[Display(fqdn)].fqdn && rows'[Display(fqdn)].domain == rows[Display(fqdn)].domain
    ensures Display(fqdn) !in rows ==>
      rows'[Display(fqdn)].fqdn == Display(fqdn) && rows'[Display(fqdn)].domain == Domain(fqdn)
  {
    var key := Display(fqdn);
    if key in rows then rows[key := rows[key].(ips := rows[key].ips + nets)]
    else rows[key := DnsRow(key, nets, Domain(fqdn))]
  }

  /** Every row of `rows` is still in `rows'`, same name and domain, with at least its addresses. */
  predicate Grows(rows: map<string, DnsRow>, rows': map<string, DnsRow>) {
    forall k :: k in rows ==>
      && k in rows'
      && rows'[k].fqdn == rows[k].fqdn
      && rows'[k].domain == rows[k].domain
      && rows[k].ips <= rows'[k].ips
  }

  /** The merge never removes an address or a row. */
  lemma UpsertGrows(rows: map<string, DnsRow>, fqdn: Fqdn, nets: set<IpNetwork>)
    requires |fqdn.labels| >= 2
    ensures Grows(rows, Upserted(rows, fqdn, nets))
    ensures nets <= Upserted(rows, fqdn, nets)[Display(fqdn)].ips
  {
  }

  lemma GrowsTransitive(a: map<string, DnsRow>, b: map<string, DnsRow>, c: map<string, DnsRow>)
    requires Grows(a, b) && Grows(b, c)
    ensures Grows(a, c)
  {
  }

  /** Submitting the same addresses again changes nothing. */
  lemma UpsertIdempotent(rows: map<string, DnsRow>, fqdn: Fqdn, nets: set<IpNetwork>)
    requires |fqdn.labels| >= 2
    ensures Upserted(Upserted(rows, fqdn, nets), fqdn, nets) == Upserted(rows, fqdn, nets)
  {
    var once := Upserted(rows, fqdn, nets);
    var key := Display(fqdn);
    assert once[key].ips + nets == once[key].ips;
    assert once[key].(ips := once[key].ips + nets) == once[key];
    assert once[key := once[key]] == once;
  }

  /** An empty submission for a name already stored leaves the table as it was. */
  lemma UpsertNothing(rows: map<string, DnsRow>, fqdn: Fqdn)
    requires |fqdn.labels| >= 2
    requires Display(fqdn) in rows
    ensures Upserted(rows, fqdn, {}) == rows
  {
    var key := Display(fqdn);
    assert rows[key].(ips := rows[key].ips + {}) == rows[key];
    assert rows[key := rows[key]] == rows;
  }

  /** Two parsed names with the same text are the same name. */
  lemma DisplayInjective(f: Fqdn, g: Fqdn)
    requires WellFormed(f, false) && WellFormed(g, false)
    requires Display(f) == Display(g)
    ensures f == g
  {
    DisplayParses(f, false);
    DisplayParses(g, false);
  }

  /** Two writers racing, for the same name or for two names, leave the same table in either order. */
  lemma UpsertCommutes(rows: map<string, DnsRow>, f: Fqdn, a: set<IpNetwork>, g: Fqdn, b: set<IpNetwork>)
    requires WellFormed(f, false) && WellFormed(g, false)
    ensures Upserted(Upserted(rows, f, a), g, b) == Upserted(Upserted(rows, g, b), f, a)
  {
    if Display(f) == Display(g) {
      DisplayInjective(f, g);
      UpsertCommutesOneName(rows, f, a, b);
    } else {
      UpsertCommutesTwoNames(rows, f, a, g, b);
    }
  }

  /** Two writes for one name give the union of both address sets in either order. */
  lemma UpsertCommutesOneName(rows: map<string, DnsRow>, f: Fqdn, a: set<IpNetwork>, b: set<IpNetwork>)
    requires |f.labels| >= 2
    ensures Upserted(Upserted(rows, f, a), f, b) == Upserted(Upserted(rows, f, b), f, a)
  {
    var ab := Upserted(Upserted(rows, f, a), f, b);
    var ba := Upserted(Upserted(rows, f, b), f, a);
    var key := Display(f);
    assert StoredIps(rows, key) + a + b == StoredIps(rows, key) + b + a;
    assert ab[key] == ba[key];
    assert ab == ba;
  }

  /** Writes for two different names touch different rows. */
  lemma UpsertCommutesTwoNames(rows: map<string, DnsRow>, f: Fqdn, a: set<IpNetwork>, g: Fqdn, b: set<IpNetwork>)
    requires |f.labels| >= 2 && |g.labels| >= 2
    requires Display(f) != Display(g)
    ensures Upserted(Upserted(rows, f, a), g, b) == Upserted(Upserted(rows, g, b), f, a)
  {
    var ab := Upserted(Upserted(rows, f, a), g, b);
    var ba := Upserted(Upserted(rows, g, b), f, a);
    assert ab.Keys == ba.Keys;
    assert ab[Display(f)] == ba[Display(f)];
    assert ab[Display(g)] == ba[Display(g)];
    assert ab == ba;
  }

  /** Storage failures of a write. */
  datatype DnsError = ResolveError | StoreError

  /** The "dns-recon" table of the recon database, keyed by the name's text. */
  class DnsStore {
    var rows: map<string, DnsRow>

    constructor ()
      ensures rows == map[]
    {
      rows := map[];
    }

    /**
     * `is_fqdn_in_dns_recon_db`: whether a row exists for `fqdn`; a failed
     * query (`queryOk` false) or a NULL answer counts as "no row".
     */
    method Exists(fqdn: Fqdn, queryOk: bool) returns (found: bool)
      ensures found <==> queryOk && Display(fqdn) in rows
    {
      found := queryOk && Display(fqdn) in rows;
    }

    /**
     * `submit_dns_recon_results`: the addresses become host networks and are
     * merged into the row for `fqdn`; a failed write (`ok` false) changes nothing.
     */
    method Submit(fqdn: Fqdn, ips: seq<IpAddr>, corrected: bool, ok: bool) returns (r: Result<(), DnsError>)
      requires |fqdn.labels| >= 2
      modifies this
      ensures ok ==> r == Ok(()) && rows == Upserted(old(rows), fqdn, NetworkSet(corrected, ips))
      ensures !ok ==> r == Err(StoreError) && rows == old(rows)
    {
      var nets := ToNetworks(ips, corrected);
      if !ok {
        return Err(StoreError);
      }
      var key := Display(fqdn);
      var added := set n | n in nets;
      assert added == NetworkSet(corrected, ips);
      if key in rows {
        rows := rows[key := rows[key].(ips := rows[key].ips + added)];
      } else {
        rows := rows[key := DnsRow(key, added, Domain(fqdn))];
      }
      r := Ok(());
    }
  }

  // ---------------------------------------------------------------------
  // One input line
  // ---------------------------------------------------------------------

  /**
   * Command-line switches: database storage, `--query-known-fqdns`,
   * `--quiet`, strict names; `corrected` picks the program that stores IPv6
   * addresses as /128 hosts instead of /32 networks.
   */
  datatype DnsConfig = DnsConfig(storage: bool, queryKnown: bool, quiet: bool, strict: bool, corrected: bool)

  // ---------------------------------------------------------------------
  // The name of an answer
  // ---------------------------------------------------------------------

  /** ASCII lowercasing, the part of the IDNA mapping that affects names of the FQDN grammar. */
  function LowerChar(c: char): char {
    if 'A' <= c <= 'Z' then (c as int + 32) as char else c
  }

  function LowerText(s: string): (t: string)
    ensures |t| == |s| && forall k :: 0 <= k < |s| ==> t[k] == LowerChar(s[k])
  {
    seq(|s|, k requires 0 <= k < |s| => LowerChar(s[k]))
  }

  function LowerAll(parts: seq<string>): (ls: seq<string>)
    ensures |ls| == |parts| && forall k :: 0 <= k < |parts| ==> ls[k] == LowerText(parts[k])
  {
    seq(|parts|, k requires 0 <= k < |parts| => LowerText(parts[k]))
  }

  /**
   * The name an answer carries, `Fqdn::from(query.name())`: hickory built
   * the query name with `Name::from_utf8`, whose IDNA mapping lowercases.
   */
  function Lowered(f: Fqdn): (g: Fqdn)
    ensures |g.labels| == |f.labels|
    ensures Display(g) == LowerText(Display(f))
  {
    JoinLowered(f.labels);
    Fqdn(LowerAll(f.labels))
  }

  lemma LowerTextAppend(a: string, b: string)
    ensures LowerText(a + b) == LowerText(a) + LowerText(b)
  {
  }

  lemma {:induction false} JoinLowered(parts: seq<string>)
    ensures Join(LowerAll(parts)) == LowerText(Join(parts))
    decreases |parts|
  {
    if |parts| >= 2 {
      JoinLowered(parts[1..]);
      assert LowerAll(parts)[1..] == LowerAll(parts[1..]);
      LowerTextAppend(parts[0] + ".", Join(parts[1..]));
      LowerTextAppend(parts[0], ".");
    }
  }

  /** Lowercasing keeps a parsed name well formed. */
  lemma LoweredWellFormed(f: Fqdn, strict: bool)
    requires WellFormed(f, strict)
    ensures WellFormed(Lowered(f), strict)
  {
    var g := Lowered(f);
    forall k | 0 <= k < |g.labels|
      ensures IsLabel(g.labels[k]) && (BreaksStrictRules(g.labels[k]) ==> BreaksStrictRules(f.labels[k]))
    {
      LowerKeepsLabel(f.labels[k]);
    }
  }

  lemma LowerKeepsLabel(l: string)
    requires IsLabel(l)
    ensures IsLabel(LowerText(l))
    ensures BreaksStrictRules(LowerText(l)) ==> BreaksStrictRules(l)
  {
    var m := LowerText(l);
    if i :| 0 <= i < |m| - 1 && m[i] == '-' && m[i + 1] == '-' {
      assert l[i] == '-' && l[i + 1] == '-';
    }
  }

  /**
   * `skip_known_fqdn`, which answers true to keep a name: always without a
   * store, otherwise when known names are queried again or the name is not known.
   */
  function Admits(storage: bool, queryKnown: bool, known: bool): (keep: bool)
    ensures !keep <==> storage && !queryKnown && known
  {
    if storage then queryKnown || !known else true
  }

  /** What the resolver answers for one name. */
  datatype Lookup = Found(ips: seq<IpAddr>) | NoRecordsFound | Failed

  /** How the database and the resolver behave for one input line. */
  datatype DnsEnv = DnsEnv(existsQueryOk: bool, lookup: Lookup, storeOk: bool)

  /** The addresses joined by single spaces. */
  function Spaced(ips: seq<IpAddr>): string
    decreases |ips|
  {
    if |ips| == 0 then ""
    else if |ips| == 1 then ips[0].text
    else ips[0].text + " " + Spaced(ips[1..])
  }

  /** The line printed for an answer: the name, a space, the addresses. */
  function AnswerLine(fqdn: Fqdn, ips: seq<IpAddr>): string {
    Display(fqdn) + " " + Spaced(ips)
  }

  /** The name and the addresses can be read back from a printed line. */
  lemma AnswerLineSplits(fqdn: Fqdn, strict: bool, ips: seq<IpAddr>)
    requires WellFormed(fqdn, strict)
    ensures SplitOnce(AnswerLine(fqdn, ips), ' ') == Some((Display(fqdn), Spaced(ips)))
    ensures ParseFqdn(SplitOnce(AnswerLine(fqdn, ips), ' ').value.0, strict) == Ok(fqdn)
  {
    DisplayLacksSpace(fqdn, strict);
    SplitOnceAt(Display(fqdn), Spaced(ips), ' ');
    DisplayParses(fqdn, strict);
  }

  /** Where a run stands: the table, the printed lines, one warning per dropped line, and the outcome. */
  datatype DnsRun = DnsRun(rows: map<string, DnsRow>, lines: seq<string>, warnings: seq<ParseFqdnError>, result: Result<(), DnsError>)

  /** Writing `nets` for `fqdn`, when there is a store. */
  function Persisted(s: DnsRun, cfg: DnsConfig, fqdn: Fqdn, nets: set<IpNetwork>, ok: bool): DnsRun
    requires |fqdn.labels| >= 2
  {
    if !cfg.storage then s
    else if ok then s.(rows := Upserted(s.rows, fqdn, nets))
    else s.(result := Err(StoreError))
  }

  /** The body of the `while let` loop for one resolver answer. */
  function Resolved(s: DnsRun, cfg: DnsConfig, fqdn: Fqdn, env: DnsEnv): DnsRun
    requires |fqdn.labels| >= 2
  {
    match env.lookup
    case Found(ips) =>
      var lines := if cfg.quiet then s.lines else s.lines + [AnswerLine(Lowered(fqdn), ips)];
      Persisted(s.(lines := lines), cfg, Lowered(fqdn), NetworkSet(cfg.corrected, ips), env.storeOk)
    case NoRecordsFound => Persisted(s, cfg, Lowered(fqdn), {}, env.storeOk)
    case Failed => s.(result := Err(ResolveError))
  }

  /** One input line: parsed, admitted or skipped, then resolved. */
  function LineStep(s: DnsRun, cfg: DnsConfig, line: string, env: DnsEnv): DnsRun {
    match ParseFqdn(line, cfg.strict)
    case Err(e) => s.(warnings := s.warnings + [e])
    case Ok(fqdn) =>
      if Admits(cfg.storage, cfg.queryKnown, env.existsQueryOk && Display(fqdn) in s.rows) then
        Resolved(s, cfg, fqdn, env)
      else s
  }

  /**
   * The run over `input`: line `i` meets the database and resolver as
   * `world(i)` says, after the lines before it; the first error ends it.
   */
  function RunSpec(init: map<string, DnsRow>, cfg: DnsConfig, input: seq<string>, world: nat -> DnsEnv): DnsRun
    decreases |input|
  {
    if |input| == 0 then DnsRun(init, [], [], Ok(()))
    else
      var s := RunSpec(init, cfg, input[..|input| - 1], world);
      if s.result.Err? then s
      else LineStep(s, cfg, input[|input| - 1], world(|input| - 1))
  }

  /** The `main` loop: one name at a time, in input order, each answer handled before the next name is filtered. */
  method RunDnsRecon(store: DnsStore, cfg: DnsConfig, input: seq<string>, world: nat -> DnsEnv)
    returns (lines: seq<string>, warnings: seq<ParseFqdnError>, r: Result<(), DnsError>)
    modifies store
    ensures DnsRun(store.rows, lines, warnings, r) == RunSpec(old(store.rows), cfg, input, world)
  {
    lines, warnings, r := [], [], Ok(());
    var i := 0;
    while i < |input|
      invariant 0 <= i <= |input|
      invariant r == Ok(())
      invariant DnsRun(store.rows, lines, warnings, r) == RunSpec(old(store.rows), cfg, input[..i], world)
    {
      assert input[..i + 1][..i] == input[..i];
      lines, warnings, r := HandleLine(store, cfg, input[i], world(i), lines, warnings);
      i := i + 1;
      if r.Err? {
        AbortIsFinal(old(store.rows), cfg, input, world, i);
        return;
      }
    }
    assert input[..|input|] == input;
  }

  /** One pass of the loop: parse the line, ask the store, resolve, print and write. */
  method HandleLine(store: DnsStore, cfg: DnsConfig, line: string, env: DnsEnv, lines0: seq<string>, warnings0: seq<ParseFqdnError>)
    returns (lines: seq<string>, warnings: seq<ParseFqdnError>, r: Result<(), DnsError>)
    modifies store
    ensures DnsRun(store.rows, lines, warnings, r) == LineStep(DnsRun(old(store.rows), lines0, warnings0, Ok(())), cfg, line, env)
  {
    lines, warnings, r := lines0, warnings0, Ok(());
    match ParseFqdn(line, cfg.strict) {
      case Err(e) =>
        warnings := warnings + [e];
      case Ok(fqdn) =>
        var known := false;
        if cfg.storage {
          known := store.Exists(fqdn, env.existsQueryOk);
        }
        if Admits(cfg.storage, cfg.queryKnown, known) {
          lines, r := HandleAnswer(store, cfg, fqdn, env, lines, warnings);
        }
    }
  }

  /** The body of the `while let` loop: print and write one resolver answer. */
  method HandleAnswer(store: DnsStore, cfg: DnsConfig, fqdn: Fqdn, env: DnsEnv, lines0: seq<string>, warnings: seq<ParseFqdnError>)
    returns (lines: seq<string>, r: Result<(), DnsError>)
    requires |fqdn.labels| >= 2
    modifies store
    ensures DnsRun(store.rows, lines, warnings, r) == Resolved(DnsRun(old(store.rows), lines0, warnings, Ok(())), cfg, fqdn, env)
  {
    lines, r := lines0, Ok(());
    var name := Lowered(fqdn);
    match env.lookup {
      case Found(ips) =>
        if !cfg.quiet {
          lines := lines + [AnswerLine(name, ips)];
        }
        if cfg.storage {
          r := store.Submit(name, ips, cfg.corrected, env.storeOk);
        }
      case NoRecordsFound =>
        if cfg.storage {
          r := store.Submit(name, [], cfg.corrected, env.storeOk);
        }
      case Failed =>
        r := Err(ResolveError);
    }
  }

  // ---------------------------------------------------------------------
  // Properties of a line and of a run
  // ---------------------------------------------------------------------

  /** Once a prefix of the input has failed, the rest of the input changes nothing. */
  lemma {:induction false} AbortIsFinal(init: map<string, DnsRow>, cfg: DnsConfig, input: seq<string>, world: nat -> DnsEnv, k: nat)
    requires k <= |input|
    requires RunSpec(init, cfg, input[..k], world).result.Err?
    ensures RunSpec(init, cfg, input, world) == RunSpec(init, cfg, input[..k], world)
    decreases |input|
  {
    if k < |input| {
      var prefix := input[..|input| - 1];
      assert prefix[..k] == input[..k];
      AbortIsFinal(init, cfg, prefix, world, k);
    } else {
      assert input[..k] == input;
    }
  }

  /** A line never removes a row or an address. */
  lemma LineGrows(s: DnsRun, cfg: DnsConfig, line: string, env: DnsEnv)
    ensures Grows(s.rows, LineStep(s, cfg, line, env).rows)
  {
    match ParseFqdn(line, cfg.strict)
    case Err(_) =>
    case Ok(fqdn) => ResolvedGrows(s, cfg, fqdn, env);
  }

  /** Handling an answer never removes a row or an address. */
  lemma ResolvedGrows(s: DnsRun, cfg: DnsConfig, fqdn: Fqdn, env: DnsEnv)
    requires |fqdn.labels| >= 2
    ensures Grows(s.rows, Resolved(s, cfg, fqdn, env).rows)
  {
    if cfg.storage {
      match env.lookup
      case Found(ips) => UpsertGrows(s.rows, Lowered(fqdn), NetworkSet(cfg.corrected, ips));
      case NoRecordsFound => UpsertGrows(s.rows, Lowered(fqdn), {});
      case Failed =>
    }
  }

  /** Over a whole run the table only grows, whatever the answers and failures. */
  lemma {:induction false} RunGrows(init: map<string, DnsRow>, cfg: DnsConfig, input: seq<string>, world: nat -> DnsEnv)
    ensures Grows(init, RunSpec(init, cfg, input, world).rows)
    decreases |input|
  {
    if |input| > 0 {
      var prefix := input[..|input| - 1];
      RunGrows(init, cfg, prefix, world);
      var s := RunSpec(init, cfg, prefix, world);
      if s.result.Ok? {
        LineGrows(s, cfg, input[|input| - 1], world(|input| - 1));
        GrowsTransitive(init, s.rows, RunSpec(init, cfg, input, world).rows);
      }
    }
  }

  /** A name the store already holds is skipped, when known names are not queried again and the query works. */
  lemma KnownNameSkipped(s: DnsRun, cfg: DnsConfig, line: string, env: DnsEnv)
    requires cfg.storage && !cfg.queryKnown && env.existsQueryOk
    requires ParseFqdn(line, cfg.strict).Ok? && line in s.rows
    ensures LineStep(s, cfg, line, env) == s
  {
  }

  /** A name is resolved when there is no store, when known names are queried again, or when the query finds no row or fails. */
  lemma NameAdmitted(s: DnsRun, cfg: DnsConfig, line: string, env: DnsEnv)
    requires ParseFqdn(line, cfg.strict).Ok?
    requires !cfg.storage || cfg.queryKnown || !env.existsQueryOk || line !in s.rows
    ensures LineStep(s, cfg, line, env) == Resolved(s, cfg, ParseFqdn(line, cfg.strict).value, env)
  {
  }

  /**
   * A lowercase name read twice in a row is resolved only once when it was
   * stored the first time.
   */
  lemma RepeatedNameSkipped(s: DnsRun, cfg: DnsConfig, line: string, first: DnsEnv, second: DnsEnv)
    requires cfg.storage && !cfg.queryKnown && second.existsQueryOk
    requires ParseFqdn(line, cfg.strict).Ok? && LowerText(line) == line
    requires !first.lookup.Failed? && first.storeOk
    ensures LineStep(LineStep(s, cfg, line, first), cfg, line, second) == LineStep(s, cfg, line, first)
  {
    var s' := LineStep(s, cfg, line, first);
    assert line in s'.rows;
    KnownNameSkipped(s', cfg, line, second);
  }

  /**
   * A new name with capitals is stored under its lowercase form, so the
   * lookup of the next occurrence, made with the name as read, finds no
   * row and the name is resolved again.
   */
  lemma MixedCaseNameResolvedAgain(s: DnsRun, cfg: DnsConfig, line: string, first: DnsEnv, second: DnsEnv)
    requires cfg.storage && !cfg.queryKnown
    requires ParseFqdn(line, cfg.strict).Ok? && LowerText(line) != line && line !in s.rows
    requires !first.lookup.Failed? && first.storeOk
    ensures var s' := LineStep(s, cfg, line, first);
      && LowerText(line) in s'.rows && line !in s'.rows
      && LineStep(s', cfg, line, second) == Resolved(s', cfg, ParseFqdn(line, cfg.strict).value, second)
  {
  }

  /**
   * An answer is printed under the lowercased name, unless quiet, then
   * merged into the row for that name when there is a store and the write
   * works: each address as its host network, except that as written an
   * IPv6 address goes in as a /32 network.
   */
  lemma AnswerPrintedAndStored(s: DnsRun, cfg: DnsConfig, fqdn: Fqdn, ips: seq<IpAddr>, env: DnsEnv)
    requires |fqdn.labels| >= 2 && env.lookup == Found(ips)
    ensures var key := LowerText(Display(fqdn));
      Resolved(s, cfg, fqdn, env).lines == s.lines + (if cfg.quiet then [] else [key + " " + Spaced(ips)])
    ensures var key := LowerText(Display(fqdn)); var r := Resolved(s, cfg, fqdn, env);
      cfg.storage && env.storeOk ==>
      && r.result == s.result
      && r.rows[key].ips == StoredIps(s.rows, key) + NetworkSet(cfg.corrected, ips)
      && (forall i :: 0 <= i < |ips| && (cfg.corrected || ips[i].family == V4) ==> HostNetwork(ips[i]) in r.rows[key].ips)
      && (forall i :: 0 <= i < |ips| && !cfg.corrected ==> IpNetwork(ips[i], 32) in r.rows[key].ips)
    ensures cfg.storage && !env.storeOk ==> Resolved(s, cfg, fqdn, env).result == Err(StoreError)
    ensures !cfg.storage ==> Resolved(s, cfg, fqdn, env).rows == s.rows && Resolved(s, cfg, fqdn, env).result == s.result
  {
  }

  /** "No records" prints nothing and stores an empty set: a new empty row, or an existing row left alone. */
  lemma NoRecordsStoresEmpty(s: DnsRun, cfg: DnsConfig, fqdn: Fqdn, env: DnsEnv)
    requires |fqdn.labels| >= 2 && env.lookup == NoRecordsFound
    requires cfg.storage && env.storeOk
    ensures Resolved(s, cfg, fqdn, env).lines == s.lines
    ensures Resolved(s, cfg, fqdn, env).result == s.result
    ensures LowerText(Display(fqdn)) in s.rows ==> Resolved(s, cfg, fqdn, env).rows == s.rows
    ensures LowerText(Display(fqdn)) !in s.rows ==>
      Resolved(s, cfg, fqdn, env).rows[LowerText(Display(fqdn))] == DnsRow(LowerText(Display(fqdn)), {}, Domain(Lowered(fqdn)))
  {
    if LowerText(Display(fqdn)) in s.rows {
      UpsertNothing(s.rows, Lowered(fqdn));
    }
  }

  /** A failed write of the empty answer ends the run, with nothing printed or stored. */
  lemma NoRecordsWriteFailureAborts(s: DnsRun, cfg: DnsConfig, fqdn: Fqdn, env: DnsEnv)
    requires |fqdn.labels| >= 2 && env.lookup == NoRecordsFound
    requires cfg.storage && !env.storeOk
    ensures Resolved(s, cfg, fqdn, env) == s.(result := Err(StoreError))
  {
  }

  /** Any other resolver error ends the run, with nothing printed or stored for the name. */
  lemma FailedLookupAborts(s: DnsRun, cfg: DnsConfig, fqdn: Fqdn, env: DnsEnv)
    requires |fqdn.labels| >= 2 && env.lookup == Failed
    ensures Resolved(s, cfg, fqdn, env) == s.(result := Err(ResolveError))
  {
  }

  /** How many lines of `input` do not parse as a name. */
  function Malformed(input: seq<string>, strict: bool): nat
    decreases |input|
  {
    if |input| == 0 then 0
    else Malformed(input[..|input| - 1], strict) + (if ParseFqdn(input[|input| - 1], strict).Err? then 1 else 0)
  }

  /** A line adds a warning exactly when it is not a name, and that warning is its error. */
  lemma StepWarnings(s: DnsRun, cfg: DnsConfig, line: string, env: DnsEnv)
    ensures LineStep(s, cfg, line, env).warnings ==
      s.warnings + (if ParseFqdn(line, cfg.strict).Err? then [ParseFqdn(line, cfg.strict).error] else [])
  {
  }

  /** The last step of a run that ends well. */
  lemma {:induction false} RunSnoc(init: map<string, DnsRow>, cfg: DnsConfig, input: seq<string>, world: nat -> DnsEnv)
    requires |input| > 0
    requires RunSpec(init, cfg, input, world).result.Ok?
    ensures RunSpec(init, cfg, input[..|input| - 1], world).result.Ok?
    ensures RunSpec(init, cfg, input, world) ==
      LineStep(RunSpec(init, cfg, input[..|input| - 1], world), cfg, input[|input| - 1], world(|input| - 1))
  {
  }

  /** A run that ends well warned once for each line that is not a name, and the rest of the input was still read. */
  lemma {:induction false} WarningPerMalformedLine(init: map<string, DnsRow>, cfg: DnsConfig, input: seq<string>, world: nat -> DnsEnv)
    requires RunSpec(init, cfg, input, world).result.Ok?
    ensures |RunSpec(init, cfg, input, world).warnings| == Malformed(input, cfg.strict)
    decreases |input|
  {
    if |input| > 0 {
      var prefix := input[..|input| - 1];
      RunSnoc(init, cfg, input, world);
      WarningPerMalformedLine(init, cfg, prefix, world);
      StepWarnings(RunSpec(init, cfg, prefix, world), cfg, input[|input| - 1], world(|input| - 1));
    }
  }

  /** In a run that ends well, every line that is not a name left its error among the warnings. */
  lemma {:induction false} MalformedLineWarned(init: map<string, DnsRow>, cfg: DnsConfig, input: seq<string>, world: nat -> DnsEnv)
    requires RunSpec(init, cfg, input, world).result.Ok?
    ensures forall k :: 0 <= k < |input| && ParseFqdn(input[k], cfg.strict).Err? ==>
      ParseFqdn(input[k], cfg.strict).error in RunSpec(init, cfg, input, world).warnings
    decreases |input|
  {
    if |input| > 0 {
      var prefix := input[..|input| - 1];
      RunSnoc(init, cfg, input, world);
      MalformedLineWarned(init, cfg, prefix, world);
      StepWarnings(RunSpec(init, cfg, prefix, world), cfg, input[|input| - 1], world(|input| - 1));
      forall k | 0 <= k < |input| - 1
        ensures input[k] == prefix[k]
      {
      }
    }
  }
}
