/**
 * Target naming shared by the recon tools: fully qualified domain names,
 * their parsing and display, and the "IP address or FQDN" argument type
 * (crates/grimoire/src/lib.rs).
 */
module Grimoire {
  import opened Wrappers
  import opened Text

  /** Longest input string that can be an FQDN. */
  const MaxFqdnLength: nat := 253
  /** Longest single label the FQDN grammar admits. */
  const MaxLabelLength: nat := 63

  // ---------------------------------------------------------------------
  // Labels, splitting and joining
  // ---------------------------------------------------------------------

  /** The character class `[a-zA-Z0-9-]` of the FQDN grammar. */
  predicate IsLabelChar(c: char) {
    ('a' <= c <= 'z') || ('A' <= c <= 'Z') || ('0' <= c <= '9') || c == '-'
  }

  predicate AllLabelChars(s: string) {
    forall i :: 0 <= i < |s| ==> IsLabelChar(s[i])
  }

  /** One label of the grammar: 1 to 63 characters of the label class. */
  predicate IsLabel(l: string) {
    1 <= |l| <= MaxLabelLength && AllLabelChars(l)
  }

  /** `str::split('.')`: the pieces between dots, empty pieces included. */
  function Split(s: string): (parts: seq<string>)
    ensures |parts| >= 1
    ensures forall k :: 0 <= k < |parts| ==> '.' !in parts[k]
    decreases |s|
  {
    if |s| == 0 then [""]
    else
      var rest := Split(s[1..]);
      if s[0] == '.' then [""] + rest
      else [[s[0]] + rest[0]] + rest[1..]
  }

  /** `join(".")` over a vector of strings. */
  function Join(parts: seq<string>): string
    decreases |parts|
  {
    if |parts| == 0 then ""
    else if |parts| == 1 then parts[0]
    else parts[0] + "." + Join(parts[1..])
  }

  /** Putting a character in front of the first piece puts it in front of the join. */
  lemma {:induction false} JoinConsHead(c: char, parts: seq<string>)
    requires |parts| >= 1
    ensures Join([[c] + parts[0]] + parts[1..]) == [c] + Join(parts)
  {
    if |parts| == 1 {
      assert [[c] + parts[0]] + parts[1..] == [[c] + parts[0]];
    } else {
      JoinConsHeadLong(c, parts);
    }
  }

  lemma {:induction false} JoinConsHeadLong(c: char, parts: seq<string>)
    requires |parts| >= 2
    ensures Join([[c] + parts[0]] + parts[1..]) == [c] + Join(parts)
  {
    var q := [[c] + parts[0]] + parts[1..];
    assert |q| >= 2 && q[0] == [c] + parts[0];
    assert q[1..] == parts[1..];
    var tail := Join(parts[1..]);
    assert Join(q) == q[0] + "." + tail;
    assert Join(parts) == parts[0] + "." + tail;
    assert ([c] + parts[0]) + "." + tail == [c] + (parts[0] + "." + tail);
  }

  /** Joining the pieces of a split gives the string back. */
  lemma {:induction false} JoinSplit(s: string)
    ensures Join(Split(s)) == s
    decreases |s|
  {
    if |s| > 0 {
      var rest := Split(s[1..]);
      JoinSplit(s[1..]);
      if s[0] == '.' {
        assert ([""] + rest)[1..] == rest;
        assert s == [s[0]] + s[1..];
      } else {
        JoinConsHead(s[0], rest);
        assert s == [s[0]] + s[1..];
      }
    }
  }

  lemma {:induction false} SplitNoDotPrefix(p: string, t: string)
    requires '.' !in p
    ensures Split(p + t) == [p + Split(t)[0]] + Split(t)[1..]
    decreases |p|
  {
    if |p| == 0 {
      assert p + t == t;
      assert p + Split(t)[0] == Split(t)[0];
      assert Split(t) == [Split(t)[0]] + Split(t)[1..];
    } else {
      assert p[0] in p;
      assert (p + t)[0] == p[0] && p[0] != '.';
      assert (p + t)[1..] == p[1..] + t;
      assert forall x :: x in p[1..] ==> x in p;
      SplitNoDotPrefix(p[1..], t);
      var rest := Split(p[1..] + t);
      assert rest == [p[1..] + Split(t)[0]] + Split(t)[1..];
      assert Split(p + t) == [[p[0]] + rest[0]] + rest[1..];
      assert [p[0]] + (p[1..] + Split(t)[0]) == p + Split(t)[0];
      assert rest[1..] == Split(t)[1..];
    }
  }

  /** Splitting a join of dot-free pieces gives the pieces back. */
  lemma {:induction false} SplitJoin(ls: seq<string>)
    requires |ls| >= 1
    requires forall k :: 0 <= k < |ls| ==> '.' !in ls[k]
    ensures Split(Join(ls)) == ls
    decreases |ls|
  {
    if |ls| == 1 {
      SplitNoDotPrefix(ls[0], "");
      assert ls[0] + "" == ls[0];
    } else {
      var tail := Join(ls[1..]);
      SplitJoin(ls[1..]);
      assert Split("." + tail) == [""] + Split(tail) by {
        assert ("." + tail)[1..] == tail;
      }
      assert Join(ls) == ls[0] + ("." + tail);
      SplitNoDotPrefix(ls[0], "." + tail);
      assert ls[0] + "" == ls[0];
      assert ([""] + ls[1..])[1..] == ls[1..];
    }
  }

  /** `join` distributes over concatenation of two non-empty vectors. */
  lemma {:induction false} JoinAppend(a: seq<string>, b: seq<string>)
    requires |a| >= 1 && |b| >= 1
    ensures Join(a + b) == Join(a) + "." + Join(b)
    decreases |a|
  {
    if |a| == 1 {
      assert (a + b)[1..] == b;
    } else {
      assert (a + b)[1..] == a[1..] + b;
      JoinAppend(a[1..], b);
    }
  }

  // ---------------------------------------------------------------------
  // The FQDN grammar
  // ---------------------------------------------------------------------

  /**
   * The regular expression `^(?:[a-zA-Z0-9-]{1,63}\.){1,}(?:[a-zA-Z0-9-]{1,63})$`
   * read one character at a time: `run` is the length of the label read
   * so far, `dots` the number of dots seen.
   */
  predicate ReFrom(s: string, run: nat, dots: nat)
    decreases |s|
  {
    if |s| == 0 then 1 <= run && 1 <= dots
    else if s[0] == '.' then 1 <= run && ReFrom(s[1..], 0, dots + 1)
    else IsLabelChar(s[0]) && run < MaxLabelLength && ReFrom(s[1..], run + 1, dots)
  }

  predicate MatchesFqdnRe(s: string) {
    ReFrom(s, 0, 0)
  }

  /**
   * What the recogniser needs of the rest of the input after `run`
   * characters of the current label and `dots` dots: the split pieces
   * finish that label and are labels after it, and there are two or more
   * labels in all.
   */
  predicate SplitAccepts(s: string, run: nat, dots: nat) {
    && 1 <= run + |Split(s)[0]| <= MaxLabelLength
    && AllLabelChars(Split(s)[0])
    && (forall k :: 1 <= k < |Split(s)| ==> IsLabel(Split(s)[k]))
    && 2 <= dots + |Split(s)|
  }

  /** The recogniser in terms of the pieces of the split. */
  lemma {:induction false} ReFromSplit(s: string, run: nat, dots: nat)
    requires run <= MaxLabelLength
    ensures ReFrom(s, run, dots) <==> SplitAccepts(s, run, dots)
    decreases |s|
  {
    if |s| > 0 {
      if s[0] == '.' {
        ReFromSplit(s[1..], 0, dots + 1);
        DotStep(s, run, dots);
      } else if IsLabelChar(s[0]) && run < MaxLabelLength {
        ReFromSplit(s[1..], run + 1, dots);
        LabelCharStep(s, run, dots);
      } else {
        var rest := Split(s[1..]);
        var parts := [[s[0]] + rest[0]] + rest[1..];
        assert Split(s) == parts;
        assert parts[0][0] == s[0];
      }
    }
  }

  /** A dot ends the current label and starts a new one. */
  lemma DotStep(s: string, run: nat, dots: nat)
    requires |s| > 0 && s[0] == '.' && run <= MaxLabelLength
    ensures SplitAccepts(s, run, dots) <==> 1 <= run && SplitAccepts(s[1..], 0, dots + 1)
  {
    var rest := Split(s[1..]);
    var parts := [""] + rest;
    assert Split(s) == parts;
    assert forall k :: 1 <= k < |parts| ==> parts[k] == rest[k - 1];
    assert (forall k :: 1 <= k < |parts| ==> IsLabel(parts[k])) <==>
           (forall k :: 0 <= k < |rest| ==> IsLabel(rest[k])) by {
      if forall k :: 1 <= k < |parts| ==> IsLabel(parts[k]) {
        forall k | 0 <= k < |rest| ensures IsLabel(rest[k]) {
          assert rest[k] == parts[k + 1];
        }
      }
    }
    assert (forall k :: 0 <= k < |rest| ==> IsLabel(rest[k])) <==>
           (IsLabel(rest[0]) && forall k :: 1 <= k < |rest| ==> IsLabel(rest[k]));
  }

  /** A label character extends the current label. */
  lemma LabelCharStep(s: string, run: nat, dots: nat)
    requires |s| > 0 && IsLabelChar(s[0])
    ensures SplitAccepts(s, run, dots) <==> SplitAccepts(s[1..], run + 1, dots)
  {
    var rest := Split(s[1..]);
    var parts := [[s[0]] + rest[0]] + rest[1..];
    assert Split(s) == parts;
    assert forall k :: 1 <= k < |parts| ==> parts[k] == rest[k];
    var head := [s[0]] + rest[0];
    assert parts[0] == head;
    assert AllLabelChars(head) <==> AllLabelChars(rest[0]) by {
      assert forall i :: 1 <= i < |head| ==> head[i] == rest[0][i - 1];
      assert head[0] == s[0];
      if AllLabelChars(rest[0]) {
        forall i | 0 <= i < |head| ensures IsLabelChar(head[i]) {
          if i > 0 { assert head[i] == rest[0][i - 1]; }
        }
      }
      if AllLabelChars(head) {
        forall i | 0 <= i < |rest[0]| ensures IsLabelChar(rest[0][i]) {
          assert head[i + 1] == rest[0][i];
        }
      }
    }
  }

  /** The grammar accepts exactly the strings of two or more dot-separated labels. */
  lemma FqdnReMatchesLabels(s: string)
    ensures MatchesFqdnRe(s) <==>
      (|Split(s)| >= 2 && forall k :: 0 <= k < |Split(s)| ==> IsLabel(Split(s)[k]))
  {
    ReFromSplit(s, 0, 0);
  }

  // ---------------------------------------------------------------------
  // Fqdn
  // ---------------------------------------------------------------------

  /** `Fqdn(pub Vec<String>)`: the labels, leftmost first. */
  datatype Fqdn = Fqdn(labels: seq<string>)

  datatype ParseFqdnError = ParseFqdnError

  /** `Display for Fqdn`: the labels joined by dots. */
  function Display(f: Fqdn): string {
    Join(f.labels)
  }

  /** Rules added by the `strict-fqdn-validation` feature: true when `l` breaks one. */
  predicate BreaksStrictRules(l: string) {
    || (|l| > 0 && l[|l| - 1] == '-')
    || (exists i :: 0 <= i < |l| - 1 && l[i] == '-' && l[i + 1] == '-')
    || (|l| > 0 && (l[0] == '-' || '0' <= l[0] <= '9'))
  }

  /** No label breaks a strict-mode rule. */
  predicate KeepsStrictRules(labels: seq<string>) {
    forall k :: 0 <= k < |labels| ==> !BreaksStrictRules(labels[k])
  }

  /** What every value produced by `ParseFqdn(_, strict)` satisfies. */
  ghost predicate WellFormed(f: Fqdn, strict: bool) {
    && |f.labels| >= 2
    && (forall k :: 0 <= k < |f.labels| ==> IsLabel(f.labels[k]))
    && |Display(f)| <= MaxFqdnLength
    && (strict ==> KeepsStrictRules(f.labels))
  }

  /**
   * `Fqdn::from_str`: a length check, the grammar, the split into labels
   * and, when `strict` (the cargo feature) is on, the extra label rules.
   */
  function ParseFqdn(s: string, strict: bool): (r: Result<Fqdn, ParseFqdnError>)
    ensures |s| == 0 || |s| > MaxFqdnLength ==> r.Err?
    ensures r.Ok? ==> WellFormed(r.value, strict) && Display(r.value) == s && r.value.labels == Split(s)
    ensures r.Err? && 1 <= |s| <= MaxFqdnLength ==>
      || |Split(s)| < 2
      || (exists k :: 0 <= k < |Split(s)| && !IsLabel(Split(s)[k]))
      || (strict && !KeepsStrictRules(Split(s)))
  {
    if |s| == 0 || |s| > MaxFqdnLength then Err(ParseFqdnError)
    else if !MatchesFqdnRe(s) then
      FqdnReMatchesLabels(s);
      Err(ParseFqdnError)
    else
      var labels := Split(s);
      if strict && exists k :: 0 <= k < |labels| && BreaksStrictRules(labels[k]) then
        Err(ParseFqdnError)
      else
        FqdnReMatchesLabels(s);
        JoinSplit(s);
        Ok(Fqdn(labels))
  }

  /** Every well-formed name is accepted back from its display form. */
  lemma DisplayParses(f: Fqdn, strict: bool)
    requires WellFormed(f, strict)
    ensures ParseFqdn(Display(f), strict) == Ok(f)
  {
    var s := Display(f);
    forall k | 0 <= k < |f.labels| ensures '.' !in f.labels[k] {
      assert AllLabelChars(f.labels[k]);
    }
    SplitJoin(f.labels);
    FqdnReMatchesLabels(s);
    assert |s| >= 1 by {
      assert s == f.labels[0] + "." + Join(f.labels[1..]);
    }
  }

  /** No character outside the pieces and the dots shows up in a join. */
  lemma {:induction false} JoinLacks(parts: seq<string>, c: char)
    requires c != '.'
    requires forall k :: 0 <= k < |parts| ==> Lacks(parts[k], c)
    ensures Lacks(Join(parts), c)
    decreases |parts|
  {
    if |parts| >= 2 {
      JoinLacks(parts[1..], c);
      var tail := Join(parts[1..]);
      assert Join(parts) == parts[0] + "." + tail;
      forall k | 0 <= k < |Join(parts)| ensures Join(parts)[k] != c {
        if k < |parts[0]| {
          assert Join(parts)[k] == parts[0][k];
        } else if k > |parts[0]| {
          assert Join(parts)[k] == tail[k - |parts[0]| - 1];
        }
      }
    }
  }

  /** The display form of a parsed name holds no space. */
  lemma {:induction false} DisplayLacksSpace(f: Fqdn, strict: bool)
    requires WellFormed(f, strict)
    ensures Lacks(Display(f), ' ')
  {
    forall k | 0 <= k < |f.labels| ensures Lacks(f.labels[k], ' ') {
      assert AllLabelChars(f.labels[k]);
    }
    JoinLacks(f.labels, ' ');
  }

  /** Strict mode accepts a subset of what the lenient grammar accepts, with the same labels. */
  lemma StrictModeShrinks(s: string)
    ensures ParseFqdn(s, true).Ok? ==> ParseFqdn(s, false) == ParseFqdn(s, true)
    ensures ParseFqdn(s, true).Ok? <==> ParseFqdn(s, false).Ok? && KeepsStrictRules(Split(s))
  {
  }

  /** `Fqdn::domain`: the last two labels joined by a dot; the slice panics on fewer. */
  function Domain(f: Fqdn): (d: string)
    requires |f.labels| >= 2
    ensures |f.labels| == 2 ==> d == Display(f)
    ensures |f.labels| > 2 ==> Display(f) == Join(f.labels[..|f.labels| - 2]) + "." + d
  {
    var n := |f.labels|;
    if n > 2 then
      assert f.labels == f.labels[..n - 2] + f.labels[n - 2..];
      JoinAppend(f.labels[..n - 2], f.labels[n - 2..]);
      Join(f.labels[n - 2..])
    else
      Join(f.labels[n - 2..])
  }

  /** The domain of a parsed name is itself a two-label name of the same mode. */
  lemma DomainIsFqdn(f: Fqdn, strict: bool)
    requires WellFormed(f, strict)
    ensures ParseFqdn(Domain(f), strict) == Ok(Fqdn(f.labels[|f.labels| - 2..]))
    ensures |Domain(f)| <= |Display(f)|
  {
    var n := |f.labels|;
    var g := Fqdn(f.labels[n - 2..]);
    assert Domain(f) == Display(g);
    assert WellFormed(g, strict);
    DisplayParses(g, strict);
  }

  // ---------------------------------------------------------------------
  // IpAddrOrFqdn
  // ---------------------------------------------------------------------

  datatype IpFamily = V4 | V6

  /** A `std::net::IpAddr`; `text` is its canonical `Display` form. */
  datatype IpAddr = IpAddr(family: IpFamily, text: string)

  datatype AddrParseError = AddrParseError

  /** `IpAddr::from_str` of the standard library, which this model takes as given. */
  type IpParser = string -> Result<IpAddr, AddrParseError>

  datatype IpAddrOrFqdn = Ip(addr: IpAddr) | Name(fqdn: Fqdn)

  datatype ParseIpAddrOrFqdnError = ParseIpAddrOrFqdnError(ip: AddrParseError, fqdn: ParseFqdnError)

  /** `Display for IpAddrOrFqdn`. */
  function DisplayIpAddrOrFqdn(a: IpAddrOrFqdn): string {
    match a
    case Ip(addr) => addr.text
    case Name(f) => Display(f)
  }

  /** `IpAddrOrFqdn::from_str`: an IP address first, an FQDN only when that fails. */
  function ParseIpAddrOrFqdn(s: string, strict: bool, parseIp: IpParser): (r: Result<IpAddrOrFqdn, ParseIpAddrOrFqdnError>)
    ensures r.Ok? <==> parseIp(s).Ok? || ParseFqdn(s, strict).Ok?
    ensures parseIp(s).Ok? ==> r == Ok(Ip(parseIp(s).value))
    ensures r.Ok? && r.value.Name? ==>
      parseIp(s).Err? && WellFormed(r.value.fqdn, strict) && DisplayIpAddrOrFqdn(r.value) == s
  {
    match parseIp(s)
    case Ok(addr) => Ok(Ip(addr))
    case Err(e1) =>
      match ParseFqdn(s, strict)
      case Ok(f) => Ok(Name(f))
      case Err(e2) => Err(ParseIpAddrOrFqdnError(e1, e2))
  }

  /**
   * The displayed form parses back to the same value, for an address the
   * address parser reads back and a well-formed name it does not take.
   */
  lemma IpAddrOrFqdnRoundTrip(a: IpAddrOrFqdn, strict: bool, parseIp: IpParser)
    requires a.Ip? ==> parseIp(a.addr.text) == Ok(a.addr)
    requires a.Name? ==> WellFormed(a.fqdn, strict) && parseIp(Display(a.fqdn)).Err?
    ensures ParseIpAddrOrFqdn(DisplayIpAddrOrFqdn(a), strict, parseIp) == Ok(a)
  {
    if a.Name? {
      DisplayParses(a.fqdn, strict);
    }
  }
}
