/**
 * The `main` loop of `http-recon` (crates/http-recon/src/main.rs): each
 * input line is parsed into a target, a line that does not parse is
 * dropped with a warning, every target goes through `recon_http`, and the
 * first error it returns ends the run.
 */
module HttpReconMain {
  import opened Wrappers
  import opened Grimoire
  import opened HttpRecon
  import HttpHeaders

  /** Where a run stands: the tables, the printed lines, one warning per dropped line, and the outcome. */
  datatype Run = Run(tables: Tables, lines: seq<ProbeLine>, warnings: seq<InputError>, result: Result<(), ReconError>)

  /** One input line, handled after the lines before it. */
  function LineStep(s: Run, cfg: Config, parseIp: IpParser, line: string, env: LineEnv): Run {
    match ParseTarget(line, cfg.strict, parseIp)
    case Err(e) => s.(warnings := s.warnings + [e])
    case Ok(target) =>
      var r := ReconSpec(s.tables, cfg, target, env);
      Run(r.tables, s.lines + r.lines, s.warnings, r.result)
  }

  /**
   * The run over `input`, line `i` meeting the network and database as
   * `world(i)` says; after the first error no further line is read.
   */
  function RunSpec(init: Tables, cfg: Config, parseIp: IpParser, input: seq<string>, world: nat -> LineEnv): Run
    decreases |input|
  {
    if |input| == 0 then Run(init, [], [], Ok(()))
    else
      var s := RunSpec(init, cfg, parseIp, input[..|input| - 1], world);
      if s.result.Err? then s
      else LineStep(s, cfg, parseIp, input[|input| - 1], world(|input| - 1))
  }

  /** The stream loop of `main`, run one target at a time. */
  method RunHttpRecon(store: HttpStore, cfg: Config, parseIp: IpParser, input: seq<string>, world: nat -> LineEnv)
    returns (lines: seq<ProbeLine>, warnings: seq<InputError>, r: Result<(), ReconError>)
    modifies store
    ensures Run(store.Contents(), lines, warnings, r) == RunSpec(old(store.Contents()), cfg, parseIp, input, world)
  {
    lines, warnings, r := [], [], Ok(());
    var i := 0;
    while i < |input|
      invariant 0 <= i <= |input|
      invariant r == Ok(())
      invariant Run(store.Contents(), lines, warnings, r) == RunSpec(old(store.Contents()), cfg, parseIp, input[..i], world)
    {
      assert input[..i + 1][..i] == input[..i];
      match ParseTarget(input[i], cfg.strict, parseIp) {
        case Err(e) =>
          warnings := warnings + [e];
        case Ok(target) =>
          var more;
          more, r := ReconHttp(store, cfg, target, world(i));
          lines := lines + more;
      }
      i := i + 1;
      if r.Err? {
        AbortIsFinal(old(store.Contents()), cfg, parseIp, input, world, i);
        return;
      }
    }
    assert input[..|input|] == input;
  }

  /** Once a prefix of the input has failed, the rest of the input changes nothing. */
  lemma {:induction false} AbortIsFinal(init: Tables, cfg: Config, parseIp: IpParser, input: seq<string>, world: nat -> LineEnv, k: nat)
    requires k <= |input|
    requires RunSpec(init, cfg, parseIp, input[..k], world).result.Err?
    ensures RunSpec(init, cfg, parseIp, input, world) == RunSpec(init, cfg, parseIp, input[..k], world)
    decreases |input|
  {
    if k < |input| {
      var prefix := input[..|input| - 1];
      assert prefix[..k] == input[..k];
      AbortIsFinal(init, cfg, parseIp, prefix, world, k);
    } else {
      assert input[..k] == input;
    }
  }

  /** `t'` still holds every row of `t`, unchanged. */
  predicate KeepsRows(t: Tables, t': Tables) {
    && (forall k :: k in t.http ==> k in t'.http && t'.http[k] == t.http[k])
    && (forall k :: k in t.https ==> k in t'.https && t'.https[k] == t.https[k])
  }

  /** Over a whole run, a row once stored is never replaced: the first answer for a name stays. */
  lemma {:induction false} RunKeepsRows(init: Tables, cfg: Config, parseIp: IpParser, input: seq<string>, world: nat -> LineEnv)
    ensures KeepsRows(init, RunSpec(init, cfg, parseIp, input, world).tables)
    decreases |input|
  {
    if |input| > 0 {
      var prefix := input[..|input| - 1];
      RunKeepsRows(init, cfg, parseIp, prefix, world);
      var s := RunSpec(init, cfg, parseIp, prefix, world);
      if s.result.Ok? {
        var line := input[|input| - 1];
        match ParseTarget(line, cfg.strict, parseIp)
        case Err(_) =>
        case Ok(target) =>
          ReconKeepsRows(s.tables, cfg, target, world(|input| - 1));
      }
    }
  }

  /** How many lines of `input` do not parse as a target. */
  function Malformed(input: seq<string>, strict: bool, parseIp: IpParser): nat
    decreases |input|
  {
    if |input| == 0 then 0
    else
      Malformed(input[..|input| - 1], strict, parseIp)
        + (if ParseTarget(input[|input| - 1], strict, parseIp).Err? then 1 else 0)
  }

  /** A line adds a warning exactly when it does not parse, and that warning is its error. */
  lemma StepWarnings(s: Run, cfg: Config, parseIp: IpParser, line: string, env: LineEnv)
    ensures LineStep(s, cfg, parseIp, line, env).warnings ==
      s.warnings + (if ParseTarget(line, cfg.strict, parseIp).Err? then [ParseTarget(line, cfg.strict, parseIp).error] else [])
  {
  }

  /** The last step of a run that ends well. */
  lemma {:induction false} RunSnoc(init: Tables, cfg: Config, parseIp: IpParser, input: seq<string>, world: nat -> LineEnv)
    requires |input| > 0
    requires RunSpec(init, cfg, parseIp, input, world).result.Ok?
    ensures RunSpec(init, cfg, parseIp, input[..|input| - 1], world).result.Ok?
    ensures RunSpec(init, cfg, parseIp, input, world) ==
      LineStep(RunSpec(init, cfg, parseIp, input[..|input| - 1], world), cfg, parseIp, input[|input| - 1], world(|input| - 1))
  {
  }

  /** A run that ends well warned once for each line that does not parse, and for no other. */
  lemma {:induction false} WarningPerMalformedLine(init: Tables, cfg: Config, parseIp: IpParser, input: seq<string>, world: nat -> LineEnv)
    requires RunSpec(init, cfg, parseIp, input, world).result.Ok?
    ensures |RunSpec(init, cfg, parseIp, input, world).warnings| == Malformed(input, cfg.strict, parseIp)
    decreases |input|
  {
    if |input| > 0 {
      var prefix := input[..|input| - 1];
      RunSnoc(init, cfg, parseIp, input, world);
      WarningPerMalformedLine(init, cfg, parseIp, prefix, world);
      StepWarnings(RunSpec(init, cfg, parseIp, prefix, world), cfg, parseIp, input[|input| - 1], world(|input| - 1));
    }
  }

  /** In a run that ends well, every line that does not parse left its error among the warnings. */
  lemma {:induction false} MalformedLineWarned(init: Tables, cfg: Config, parseIp: IpParser, input: seq<string>, world: nat -> LineEnv)
    requires RunSpec(init, cfg, parseIp, input, world).result.Ok?
    ensures forall k :: 0 <= k < |input| && ParseTarget(input[k], cfg.strict, parseIp).Err? ==>
      ParseTarget(input[k], cfg.strict, parseIp).error in RunSpec(init, cfg, parseIp, input, world).warnings
    decreases |input|
  {
    if |input| > 0 {
      var prefix := input[..|input| - 1];
      RunSnoc(init, cfg, parseIp, input, world);
      MalformedLineWarned(init, cfg, parseIp, prefix, world);
      StepWarnings(RunSpec(init, cfg, parseIp, prefix, world), cfg, parseIp, input[|input| - 1], world(|input| - 1));
      forall k | 0 <= k < |input| - 1
        ensures input[k] == prefix[k]
      {
      }
    }
  }

  /**
   * Without a database, and with an address parser that only yields
   * well-formed addresses, a run never fails and stores nothing, as long
   * as no target meets a failure of the code as written (see `Survives`).
   */
  lemma {:induction false} RunWithoutStorage(init: Tables, cfg: Config, parseIp: IpParser, input: seq<string>, world: nat -> LineEnv)
    requires !cfg.storage
    requires forall s :: parseIp(s).Ok? ==> CanonicalText(parseIp(s).value)
    requires forall s, i: nat :: parseIp(s).Ok? ==> Survives(cfg, parseIp(s).value, world(i))
    ensures RunSpec(init, cfg, parseIp, input, world).result == Ok(())
    ensures RunSpec(init, cfg, parseIp, input, world).tables == init
    decreases |input|
  {
    if |input| > 0 {
      var prefix := input[..|input| - 1];
      RunWithoutStorage(init, cfg, parseIp, prefix, world);
      var line := input[|input| - 1];
      match ParseTarget(line, cfg.strict, parseIp)
      case Err(_) =>
      case Ok(target) =>
        assert CanonicalText(target.ip) && Survives(cfg, target.ip, world(|input| - 1));
        ReconSideEffects(init, cfg, target, world(|input| - 1));
    }
  }

  /** A line whose step fails, when the run gets that far, ends the run: no later line is read. */
  lemma {:induction false} FailingLineEndsRun(init: Tables, cfg: Config, parseIp: IpParser, input: seq<string>, world: nat -> LineEnv, k: nat)
    requires k < |input|
    requires var s := RunSpec(init, cfg, parseIp, input[..k], world);
      s.result.Ok? ==> LineStep(s, cfg, parseIp, input[k], world(k)).result.Err?
    ensures RunSpec(init, cfg, parseIp, input, world).result.Err?
    ensures RunSpec(init, cfg, parseIp, input, world) == RunSpec(init, cfg, parseIp, input[..k + 1], world)
  {
    var head := input[..k + 1];
    assert head[..k] == input[..k] && head[k] == input[k];
    AbortIsFinal(init, cfg, parseIp, input, world, k + 1);
  }

  /**
   * As written, a line naming an IPv6 address that gets probed ends the
   * run with the error of `Url::parse`.
   */
  lemma {:induction false} V6LineEndsRunAsWritten(init: Tables, cfg: Config, parseIp: IpParser, input: seq<string>, world: nat -> LineEnv, k: nat)
    requires !cfg.corrected && (!cfg.storage || cfg.queryKnown)
    requires k < |input| && ParseTarget(input[k], cfg.strict, parseIp).Ok?
    requires var ip := ParseTarget(input[k], cfg.strict, parseIp).value.ip; CanonicalText(ip) && ip.family == V6
    ensures RunSpec(init, cfg, parseIp, input, world).result.Err?
    ensures RunSpec(init, cfg, parseIp, input, world) == RunSpec(init, cfg, parseIp, input[..k + 1], world)
  {
    var s := RunSpec(init, cfg, parseIp, input[..k], world);
    V6TargetFailsAsWritten(s.tables, cfg, ParseTarget(input[k], cfg.strict, parseIp).value, world(k));
    FailingLineEndsRun(init, cfg, parseIp, input, world, k);
  }

  /**
   * As written, a line whose HTTP answer carries a `Set-Cookie` value
   * that does not parse ends the run in a panic.
   */
  lemma {:induction false} BadCookieLineEndsRunAsWritten(init: Tables, cfg: Config, parseIp: IpParser, input: seq<string>, world: nat -> LineEnv, k: nat)
    requires !cfg.corrected && (!cfg.storage || cfg.queryKnown)
    requires k < |input| && ParseTarget(input[k], cfg.strict, parseIp).Ok?
    requires var ip := ParseTarget(input[k], cfg.strict, parseIp).value.ip; CanonicalText(ip) && ip.family == V4
    requires world(k).httpOutcome.Responded? && !HttpHeaders.CookiesParse(world(k).httpOutcome.reply.headers)
    ensures RunSpec(init, cfg, parseIp, input, world).result.Err?
    ensures RunSpec(init, cfg, parseIp, input[..k], world).result.Ok? ==>
      RunSpec(init, cfg, parseIp, input, world).result == Err(Panic)
    ensures RunSpec(init, cfg, parseIp, input, world) == RunSpec(init, cfg, parseIp, input[..k + 1], world)
  {
    var s := RunSpec(init, cfg, parseIp, input[..k], world);
    var target := ParseTarget(input[k], cfg.strict, parseIp).value;
    BadCookiePanicsAsWritten(s.tables, cfg, target, world(k));
    FailingLineEndsRun(init, cfg, parseIp, input, world, k);
    if s.result.Ok? {
      var head := input[..k + 1];
      assert head[..k] == input[..k] && head[k] == input[k];
      assert RunSpec(init, cfg, parseIp, head, world) == LineStep(s, cfg, parseIp, input[k], world(k));
    }
  }
}
