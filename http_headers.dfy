/**
 * `AnonymizedHttpHeaders::from` (crates/http-recon/src/main.rs): the headers
 * of a response grouped into a map from name to values, with the cookie value
 * of every `Set-Cookie` header blanked while its name and attributes stay.
 */
module HttpHeaders {
  import opened Wrappers
  import Cookies
  import Text

  /** One header as the response carries it: lower-case name, then value. */
  type Header = (string, string)

  /** The name `reqwest::header::SET_COOKIE` displays as. */
  const SetCookie: string := "set-cookie"

  // ---------------------------------------------------------------------
  // One value
  // ---------------------------------------------------------------------

  /**
   * The per-value closure as written: a `Set-Cookie` value that
   * `Cookie::parse` rejects reaches `expect` and panics (here: `Err`).
   */
  function AnonymizeValueAsWritten(name: string, value: string): Result<string, Cookies.CookieParseError> {
    if name == SetCookie then
      match Cookies.Parse(value)
      case Ok(c) => Ok(Cookies.Serialize(Cookies.Blanked(c)))
      case Err(e) => Err(e)
    else Ok(value)
  }

  /** A `Set-Cookie` value without '=' panics the closure as written. */
  lemma AsWrittenPanicsOnBareCookie()
    ensures AnonymizeValueAsWritten(SetCookie, "session") == Err(Cookies.MissingPair)
  {
    assert Text.Lacks("session", '=');
  }

  /** The stored form of a `Set-Cookie` value reveals no cookie value. */
  predicate Anonymous(v: string) {
    v == "" || (Cookies.Parse(v).Ok? && Cookies.Parse(v).value.value == "")
  }

  /**
   * The per-value closure, corrected: a value the cookie parser rejects is
   * blanked whole instead of panicking.
   */
  function AnonymizeValue(name: string, value: string): (r: string)
    ensures AnonymizeValueAsWritten(name, value).Ok? ==> r == AnonymizeValueAsWritten(name, value).value
    ensures name != SetCookie ==> r == value
    ensures name == SetCookie && Cookies.Parse(value).Ok? ==>
      Cookies.Parse(r) == Ok(Cookies.Blanked(Cookies.Parse(value).value))
    ensures name == SetCookie ==> Anonymous(r)
  {
    match AnonymizeValueAsWritten(name, value)
    case Ok(v) =>
      if name == SetCookie then
        Cookies.ParseSerialize(Cookies.Blanked(Cookies.Parse(value).value));
        v
      else v
    case Err(_) => ""
  }

  /** The `.map(..).collect()` over one group. */
  function AnonymizeAll(name: string, values: seq<string>): (r: seq<string>)
    ensures |r| == |values|
    ensures forall i :: 0 <= i < |r| ==> r[i] == AnonymizeValue(name, values[i])
    ensures name != SetCookie ==> r == values
  {
    seq(|values|, i requires 0 <= i < |values| => AnonymizeValue(name, values[i]))
  }

  // ---------------------------------------------------------------------
  // Grouping
  // ---------------------------------------------------------------------

  /** A maximal run of adjacent headers with one name. */
  datatype Run = Run(name: string, values: seq<string>)

  /** `Itertools::chunk_by` on the header name. */
  function Runs(wire: seq<Header>): (runs: seq<Run>)
    ensures |runs| == 0 <==> |wire| == 0
    ensures |runs| > 0 ==> runs[|runs| - 1].name == wire[|wire| - 1].0
    ensures forall i :: 0 <= i < |runs| ==> |runs[i].values| >= 1
    ensures forall i :: 0 <= i < |runs| - 1 ==> runs[i].name != runs[i + 1].name
    decreases |wire|
  {
    if |wire| == 0 then []
    else
      var prev := Runs(wire[..|wire| - 1]);
      var h := wire[|wire| - 1];
      if |prev| > 0 && prev[|prev| - 1].name == h.0 then
        prev[..|prev| - 1] + [Run(h.0, prev[|prev| - 1].values + [h.1])]
      else
        prev + [Run(h.0, [h.1])]
  }

  /** The map after `map.insert` of each run in turn: a later run of a name replaces an earlier one. */
  function Insertions(runs: seq<Run>): map<string, seq<string>>
    decreases |runs|
  {
    if |runs| == 0 then map[]
    else
      var last := runs[|runs| - 1];
      Insertions(runs[..|runs| - 1])[last.name := AnonymizeAll(last.name, last.values)]
  }

  function Grouped(wire: seq<Header>): map<string, seq<string>> {
    Insertions(Runs(wire))
  }

  /** The headers a run stands for, in order. */
  function Pairs(r: Run): seq<Header> {
    seq(|r.values|, i requires 0 <= i < |r.values| => (r.name, r.values[i]))
  }

  /** The runs read back as the headers they group. */
  function Flatten(runs: seq<Run>): seq<Header>
    decreases |runs|
  {
    if |runs| == 0 then [] else Flatten(runs[..|runs| - 1]) + Pairs(runs[|runs| - 1])
  }

  /** The runs hold every header of `wire`, each once, in wire order. */
  lemma {:induction false} RunsFlatten(wire: seq<Header>)
    ensures Flatten(Runs(wire)) == wire
    decreases |wire|
  {
    if |wire| > 0 {
      var p := wire[..|wire| - 1];
      var h := wire[|wire| - 1];
      assert wire == p + [h];
      RunsFlatten(p);
      var prev := Runs(p);
      if |prev| > 0 && prev[|prev| - 1].name == h.0 {
        FlattenSameRun(p, h);
      } else {
        FlattenNewRun(p, h);
      }
    }
  }

  lemma PairsSnoc(name: string, values: seq<string>, v: string)
    ensures Pairs(Run(name, values + [v])) == Pairs(Run(name, values)) + [(name, v)]
  {
  }

  lemma FlattenSnoc(runs: seq<Run>, r: Run)
    ensures Flatten(runs + [r]) == Flatten(runs) + Pairs(r)
  {
    assert (runs + [r])[..|runs|] == runs;
  }

  /** A header that extends the last run is flattened right after it. */
  lemma {:induction false} FlattenSameRun(p: seq<Header>, h: Header)
    requires Flatten(Runs(p)) == p
    requires |Runs(p)| > 0 && Runs(p)[|Runs(p)| - 1].name == h.0
    ensures Flatten(Runs(p + [h])) == p + [h]
  {
    var prev := Runs(p);
    var k := |prev|;
    RunsExtendLast(p, h);
    assert prev == prev[..k - 1] + [prev[k - 1]];
    FlattenGrowLast(prev[..k - 1], prev[k - 1], h.1);
  }

  /** One more value in the last run is one more header at the end. */
  lemma FlattenGrowLast(init: seq<Run>, last: Run, v: string)
    ensures Flatten(init + [Run(last.name, last.values + [v])]) == Flatten(init + [last]) + [(last.name, v)]
  {
    FlattenSnoc(init, Run(last.name, last.values + [v]));
    FlattenSnoc(init, last);
    PairsSnoc(last.name, last.values, v);
  }

  /** A header with the last run's name joins that run. */
  lemma RunsExtendLast(p: seq<Header>, h: Header)
    requires |Runs(p)| > 0 && Runs(p)[|Runs(p)| - 1].name == h.0
    ensures Runs(p + [h]) ==
      Runs(p)[..|Runs(p)| - 1] + [Run(h.0, Runs(p)[|Runs(p)| - 1].values + [h.1])]
  {
    var w := p + [h];
    assert w[..|w| - 1] == p && w[|w| - 1] == h;
  }

  /** A header that starts a new run is flattened after all the others. */
  lemma {:induction false} FlattenNewRun(p: seq<Header>, h: Header)
    requires Flatten(Runs(p)) == p
    requires !(|Runs(p)| > 0 && Runs(p)[|Runs(p)| - 1].name == h.0)
    ensures Flatten(Runs(p + [h])) == p + [h]
  {
    var w := p + [h];
    assert w[..|w| - 1] == p && w[|w| - 1] == h;
    assert Runs(w) == Runs(p) + [Run(h.0, [h.1])];
    FlattenSnoc(Runs(p), Run(h.0, [h.1]));
    assert Pairs(Run(h.0, [h.1])) == [h];
  }

  /** The header names that occur in `wire`. */
  function Names(wire: seq<Header>): (names: set<string>)
    ensures forall i :: 0 <= i < |wire| ==> wire[i].0 in names
    ensures forall n :: n in names ==> exists i :: 0 <= i < |wire| && wire[i].0 == n
    decreases |wire|
  {
    if |wire| == 0 then {}
    else
      var p := wire[..|wire| - 1];
      assert forall i :: 0 <= i < |p| ==> p[i] == wire[i];
      Names(p) + {wire[|wire| - 1].0}
  }

  /** The values of the headers named `n`, in wire order. */
  function ValuesOf(wire: seq<Header>, n: string): seq<string>
    decreases |wire|
  {
    if |wire| == 0 then []
    else
      var h := wire[|wire| - 1];
      ValuesOf(wire[..|wire| - 1], n) + (if h.0 == n then [h.1] else [])
  }

  /** Each name's headers stand next to each other, as `HeaderMap::iter` yields them. */
  predicate Contiguous(wire: seq<Header>) {
    forall i, j, k :: 0 <= i < j < k < |wire| && wire[i].0 == wire[k].0 ==> wire[j].0 == wire[i].0
  }

  /** Appending one header either extends the last run or starts a new one. */
  lemma {:induction false} GroupedSnoc(w: seq<Header>, h: Header)
    ensures Grouped(w + [h]) ==
      Grouped(w)[h.0 := (if |w| > 0 && w[|w| - 1].0 == h.0 then Grouped(w)[h.0] else []) + [AnonymizeValue(h.0, h.1)]]
  {
    var prev := Runs(w);
    if |w| > 0 && w[|w| - 1].0 == h.0 {
      assert |prev| > 0 && prev[|prev| - 1].name == h.0;
      SnocSameRun(w, h);
    } else {
      assert !(|prev| > 0 && prev[|prev| - 1].name == h.0);
      SnocNewRun(w, h);
      assert [] + [AnonymizeValue(h.0, h.1)] == [AnonymizeValue(h.0, h.1)];
    }
  }

  /** Anonymising one more value appends its anonymised form. */
  lemma AnonymizeAllSnoc(name: string, values: seq<string>, v: string)
    ensures AnonymizeAll(name, values + [v]) == AnonymizeAll(name, values) + [AnonymizeValue(name, v)]
  {
  }

  /** The entry of the last run, and the map before it. */
  lemma {:induction false} GroupedLastRun(w: seq<Header>)
    requires |Runs(w)| > 0
    ensures var runs := Runs(w); var last := runs[|runs| - 1];
      Grouped(w) == Insertions(runs[..|runs| - 1])[last.name := AnonymizeAll(last.name, last.values)]
  {
  }

  /** A header with the last run's name extends that run's entry. */
  lemma {:induction false} SnocSameRun(w: seq<Header>, h: Header)
    requires |Runs(w)| > 0 && Runs(w)[|Runs(w)| - 1].name == h.0
    ensures Grouped(w + [h]) == Grouped(w)[h.0 := Grouped(w)[h.0] + [AnonymizeValue(h.0, h.1)]]
  {
    var w' := w + [h];
    assert w'[..|w'| - 1] == w && w'[|w'| - 1] == h;
    var prev := Runs(w);
    var k := |prev|;
    var last := prev[k - 1];
    var runs' := prev[..k - 1] + [Run(h.0, last.values + [h.1])];
    assert Runs(w') == runs';
    assert runs'[..|runs'| - 1] == prev[..k - 1] && runs'[|runs'| - 1] == Run(h.0, last.values + [h.1]);
    GroupedLastRun(w);
    GroupedLastRun(w');
    AnonymizeAllSnoc(h.0, last.values, h.1);
  }

  /** A header with another name than the last run's starts a new entry. */
  lemma {:induction false} SnocNewRun(w: seq<Header>, h: Header)
    requires !(|Runs(w)| > 0 && Runs(w)[|Runs(w)| - 1].name == h.0)
    ensures Grouped(w + [h]) == Grouped(w)[h.0 := [AnonymizeValue(h.0, h.1)]]
  {
    var w' := w + [h];
    assert w'[..|w'| - 1] == w && w'[|w'| - 1] == h;
    var prev := Runs(w);
    assert Runs(w') == prev + [Run(h.0, [h.1])];
    assert (prev + [Run(h.0, [h.1])])[..|prev|] == prev;
    assert AnonymizeAll(h.0, [h.1]) == [AnonymizeValue(h.0, h.1)];
  }

  /** There is one key for every header name and no other. */
  lemma {:induction false} GroupedKeys(w: seq<Header>)
    ensures Grouped(w).Keys == Names(w)
    decreases |w|
  {
    if |w| > 0 {
      var p := w[..|w| - 1];
      GroupedKeys(p);
      assert w == p + [w[|w| - 1]];
      GroupedSnoc(p, w[|w| - 1]);
    }
  }

  /** With each name's headers adjacent, every name maps to all of its values in wire order. */
  lemma {:induction false} GroupedContiguous(w: seq<Header>, n: string)
    requires Contiguous(w)
    requires n in Grouped(w)
    ensures Grouped(w)[n] == AnonymizeAll(n, ValuesOf(w, n))
    decreases |w|
  {
    GroupedKeys(w);
    var p := w[..|w| - 1];
    var h := w[|w| - 1];
    assert w == p + [h];
    ContiguousPrefix(p, h);
    if h.0 != n || (|p| > 0 && p[|p| - 1].0 == n) {
      NameInPrefix(p, h, n);
      GroupedContiguous(p, n);
    }
    ContiguousStep(p, h, n);
  }

  /** A name other than the one of a new run was already a key before the last header. */
  lemma {:induction false} NameInPrefix(p: seq<Header>, h: Header, n: string)
    requires n in Grouped(p + [h])
    requires h.0 != n || (|p| > 0 && p[|p| - 1].0 == n)
    ensures n in Grouped(p)
  {
    GroupedKeys(p + [h]);
    GroupedKeys(p);
    var i :| 0 <= i < |p + [h]| && (p + [h])[i].0 == n;
    if i == |p| {
      assert p[|p| - 1].0 == n;
    } else {
      assert p[i].0 == n;
    }
  }

  /** The step of the induction: the last header keeps the entry of every name right. */
  lemma {:induction false} ContiguousStep(p: seq<Header>, h: Header, n: string)
    requires Contiguous(p + [h]) && n in Grouped(p + [h])
    requires h.0 != n || (|p| > 0 && p[|p| - 1].0 == n) ==>
      n in Grouped(p) && Grouped(p)[n] == AnonymizeAll(n, ValuesOf(p, n))
    ensures Grouped(p + [h])[n] == AnonymizeAll(n, ValuesOf(p + [h], n))
  {
    if h.0 != n {
      OtherNameStep(p, h, n);
    } else if |p| > 0 && p[|p| - 1].0 == n {
      SameRunStep(p, h);
    } else {
      AbsentName(p, h);
      NewRunStep(p, h);
    }
  }

  lemma {:induction false} OtherNameStep(p: seq<Header>, h: Header, n: string)
    requires h.0 != n && n in Grouped(p)
    requires Grouped(p)[n] == AnonymizeAll(n, ValuesOf(p, n))
    ensures n in Grouped(p + [h]) && Grouped(p + [h])[n] == AnonymizeAll(n, ValuesOf(p + [h], n))
  {
    GroupedSnoc(p, h);
    assert (p + [h])[..|p|] == p;
  }

  lemma {:induction false} SameRunStep(p: seq<Header>, h: Header)
    requires |p| > 0 && p[|p| - 1].0 == h.0 && h.0 in Grouped(p)
    requires Grouped(p)[h.0] == AnonymizeAll(h.0, ValuesOf(p, h.0))
    ensures Grouped(p + [h])[h.0] == AnonymizeAll(h.0, ValuesOf(p + [h], h.0))
  {
    GroupedSnoc(p, h);
    assert (p + [h])[..|p|] == p;
    var before := ValuesOf(p, h.0);
    assert ValuesOf(p + [h], h.0) == before + [h.1];
    assert AnonymizeAll(h.0, before + [h.1]) == AnonymizeAll(h.0, before) + [AnonymizeValue(h.0, h.1)];
  }

  lemma {:induction false} NewRunStep(p: seq<Header>, h: Header)
    requires !(|p| > 0 && p[|p| - 1].0 == h.0)
    requires ValuesOf(p, h.0) == []
    ensures Grouped(p + [h])[h.0] == AnonymizeAll(h.0, ValuesOf(p + [h], h.0))
  {
    GroupedSnoc(p, h);
    assert (p + [h])[..|p|] == p;
    assert ValuesOf(p + [h], h.0) == [h.1];
    assert AnonymizeAll(h.0, [h.1]) == [AnonymizeValue(h.0, h.1)];
  }

  lemma {:induction false} ContiguousPrefix(p: seq<Header>, h: Header)
    requires Contiguous(p + [h])
    ensures Contiguous(p)
  {
    var w := p + [h];
    forall i, j, k | 0 <= i < j < k < |p| && p[i].0 == p[k].0 ensures p[j].0 == p[i].0 {
      assert w[i] == p[i] && w[j] == p[j] && w[k] == p[k];
    }
  }

  lemma {:induction false} ContiguousAt(w: seq<Header>, i: int, j: int, k: int)
    requires Contiguous(w) && 0 <= i < j < k < |w|
    ensures w[i].0 == w[k].0 ==> w[j].0 == w[i].0
  {
  }

  /** A name that ends a contiguous list and is not in its second-to-last place has no earlier headers. */
  lemma {:induction false} AbsentName(p: seq<Header>, h: Header)
    requires Contiguous(p + [h])
    requires !(|p| > 0 && p[|p| - 1].0 == h.0)
    ensures ValuesOf(p, h.0) == []
  {
    var w := p + [h];
    forall i | 0 <= i < |p| ensures p[i].0 != h.0 {
      if i < |p| - 1 {
        ContiguousAt(w, i, |p| - 1, |p|);
        assert w[i] == p[i] && w[|p| - 1] == p[|p| - 1] && w[|p|] == h;
      }
    }
    NoValuesOfAbsent(p, h.0);
  }

  lemma {:induction false} NoValuesOfAbsent(p: seq<Header>, n: string)
    requires forall i :: 0 <= i < |p| ==> p[i].0 != n
    ensures ValuesOf(p, n) == []
    decreases |p|
  {
    if |p| > 0 {
      NoValuesOfAbsent(p[..|p| - 1], n);
    }
  }

  /** Every stored `Set-Cookie` value reveals no cookie value. */
  lemma {:induction false} GroupedCookiesAnonymous(w: seq<Header>)
    requires SetCookie in Grouped(w)
    ensures forall i :: 0 <= i < |Grouped(w)[SetCookie]| ==> Anonymous(Grouped(w)[SetCookie][i])
    decreases |w|
  {
    GroupedKeys(w);
    var p := w[..|w| - 1];
    var h := w[|w| - 1];
    assert w == p + [h];
    GroupedSnoc(p, h);
    if h.0 != SetCookie {
      GroupedCookiesAnonymous(p);
    } else if |p| > 0 && p[|p| - 1].0 == SetCookie {
      GroupedKeys(p);
      assert SetCookie in Names(p);
      GroupedCookiesAnonymous(p);
    }
  }

  // ---------------------------------------------------------------------
  // The panic of the closure as written
  // ---------------------------------------------------------------------

  /** Every `Set-Cookie` value among `wire` is one `Cookie::parse` accepts. */
  predicate CookiesParse(wire: seq<Header>) {
    forall i :: 0 <= i < |wire| && wire[i].0 == SetCookie ==> Cookies.Parse(wire[i].1).Ok?
  }

  lemma CookiesParseAppend(a: seq<Header>, b: seq<Header>)
    ensures CookiesParse(a + b) <==> CookiesParse(a) && CookiesParse(b)
  {
    var w := a + b;
    if CookiesParse(a) && CookiesParse(b) {
      forall i | 0 <= i < |w| && w[i].0 == SetCookie ensures Cookies.Parse(w[i].1).Ok? {
        if i < |a| {
          assert w[i] == a[i];
        } else {
          assert w[i] == b[i - |a|];
        }
      }
    }
    if CookiesParse(w) {
      forall i | 0 <= i < |a| && a[i].0 == SetCookie ensures Cookies.Parse(a[i].1).Ok? {
        assert w[i] == a[i];
      }
      forall i | 0 <= i < |b| && b[i].0 == SetCookie ensures Cookies.Parse(b[i].1).Ok? {
        assert w[|a| + i] == b[i];
      }
    }
  }

  /** One header panics the closure as written exactly when its value is a cookie that does not parse. */
  lemma CookiesParseOne(name: string, v: string)
    ensures CookiesParse([(name, v)]) <==> AnonymizeValueAsWritten(name, v).Ok?
  {
    assert [(name, v)][0] == (name, v);
  }

  /** The `.map(..).collect()` over one group as written: the first value that panics ends it. */
  function AnonymizeAllAsWritten(name: string, values: seq<string>): (r: Option<seq<string>>)
    ensures r.Some? <==> CookiesParse(Pairs(Run(name, values)))
    ensures r.Some? ==> r.value == AnonymizeAll(name, values)
    decreases |values|
  {
    if |values| == 0 then Some([])
    else
      var init := values[..|values| - 1];
      var v := values[|values| - 1];
      AsWrittenSnoc(name, values);
      match AnonymizeAllAsWritten(name, init)
      case None => None
      case Some(vs) =>
        match AnonymizeValueAsWritten(name, v)
        case Err(_) => None
        case Ok(a) => Some(vs + [a])
  }

  /** One more value in a group: it panics, or its anonymised form is appended. */
  lemma AsWrittenSnoc(name: string, values: seq<string>)
    requires |values| > 0
    ensures CookiesParse(Pairs(Run(name, values))) <==>
      CookiesParse(Pairs(Run(name, values[..|values| - 1]))) && AnonymizeValueAsWritten(name, values[|values| - 1]).Ok?
    ensures AnonymizeValueAsWritten(name, values[|values| - 1]).Ok? ==>
      AnonymizeAll(name, values) == AnonymizeAll(name, values[..|values| - 1]) + [AnonymizeValueAsWritten(name, values[|values| - 1]).value]
  {
    var init := values[..|values| - 1];
    var v := values[|values| - 1];
    assert values == init + [v];
    PairsSnoc(name, init, v);
    CookiesParseAppend(Pairs(Run(name, init)), [(name, v)]);
    CookiesParseOne(name, v);
    assert AnonymizeAll(name, values) == AnonymizeAll(name, init) + [AnonymizeValue(name, v)];
  }

  /** The `for` loop over the groups as written: a group that panics ends it. */
  function InsertionsAsWritten(runs: seq<Run>): (r: Option<map<string, seq<string>>>)
    ensures r.Some? <==> CookiesParse(Flatten(runs))
    ensures r.Some? ==> r.value == Insertions(runs)
    decreases |runs|
  {
    if |runs| == 0 then Some(map[])
    else
      var last := runs[|runs| - 1];
      CookiesParseAppend(Flatten(runs[..|runs| - 1]), Pairs(last));
      match InsertionsAsWritten(runs[..|runs| - 1])
      case None => None
      case Some(m) =>
        match AnonymizeAllAsWritten(last.name, last.values)
        case None => None
        case Some(vs) => Some(m[last.name := vs])
  }

  /** Once a group has panicked, the later groups change nothing. */
  lemma {:induction false} PanicIsFinal(runs: seq<Run>, k: nat)
    requires k <= |runs| && InsertionsAsWritten(runs[..k]).None?
    ensures InsertionsAsWritten(runs).None?
    decreases |runs|
  {
    if k < |runs| {
      assert runs[..|runs| - 1][..k] == runs[..k];
      PanicIsFinal(runs[..|runs| - 1], k);
    } else {
      assert runs[..k] == runs;
    }
  }

  /**
   * `AnonymizedHttpHeaders::from` as written: the grouped map, or `None`
   * when a `Set-Cookie` value reaches `expect` and the process panics.
   */
  function GroupedAsWritten(wire: seq<Header>): (r: Option<map<string, seq<string>>>)
    ensures r.Some? <==> CookiesParse(wire)
    ensures r.Some? ==> r.value == Grouped(wire)
  {
    RunsFlatten(wire);
    InsertionsAsWritten(Runs(wire))
  }

  /** A bare `Set-Cookie` header is enough for the whole conversion to panic as written. */
  lemma BareCookiePanics(wire: seq<Header>, i: nat)
    requires i < |wire| && wire[i] == (SetCookie, "session")
    ensures GroupedAsWritten(wire) == None
  {
    AsWrittenPanicsOnBareCookie();
    assert !Cookies.Parse(wire[i].1).Ok?;
    assert !CookiesParse(wire);
  }

  /**
   * `AnonymizedHttpHeaders::from`: inserts each `chunk_by` group into the
   * map in turn. As written (`corrected` off) an unparsable `Set-Cookie`
   * value panics, shown as `None`; corrected, it is blanked.
   */
  method AnonymizeHeaders(wire: seq<Header>, corrected: bool) returns (headers: Option<map<string, seq<string>>>)
    ensures corrected ==> headers == Some(Grouped(wire))
    ensures !corrected ==> headers == GroupedAsWritten(wire)
    ensures headers.None? <==> !corrected && !CookiesParse(wire)
    ensures headers.Some? ==> headers.value.Keys == Names(wire)
    ensures headers.Some? && Contiguous(wire) ==>
      forall n :: n in headers.value ==> headers.value[n] == AnonymizeAll(n, ValuesOf(wire, n))
  {
    RunsFlatten(wire);
    headers := InsertRuns(Runs(wire), corrected);
    GroupedKeys(wire);
    if Contiguous(wire) {
      GroupedAllValues(wire);
    }
  }

  /** The `for` loop of `AnonymizedHttpHeaders::from` over the groups. */
  method InsertRuns(runs: seq<Run>, corrected: bool) returns (headers: Option<map<string, seq<string>>>)
    ensures corrected ==> headers == Some(Insertions(runs))
    ensures !corrected ==> headers == InsertionsAsWritten(runs)
  {
    var m := map[];
    var i := 0;
    while i < |runs|
      invariant 0 <= i <= |runs|
      invariant m == Insertions(runs[..i])
      invariant !corrected ==> InsertionsAsWritten(runs[..i]) == Some(m)
    {
      var run := runs[i];
      InsertionsStep(runs, i);
      var values;
      if corrected {
        values := AnonymizeAll(run.name, run.values);
      } else {
        var attempt := AnonymizeAllAsWritten(run.name, run.values);
        if attempt.None? {
          PanicIsFinal(runs, i + 1);
          return None;
        }
        values := attempt.value;
      }
      m := m[run.name := values];
      i := i + 1;
    }
    assert runs[..|runs|] == runs;
    headers := Some(m);
  }

  /** One more group inserted, in both forms of the loop. */
  lemma InsertionsStep(runs: seq<Run>, i: nat)
    requires i < |runs|
    ensures Insertions(runs[..i + 1]) == Insertions(runs[..i])[runs[i].name := AnonymizeAll(runs[i].name, runs[i].values)]
    ensures InsertionsAsWritten(runs[..i + 1]) ==
      match InsertionsAsWritten(runs[..i])
      case None => None
      case Some(m) =>
        match AnonymizeAllAsWritten(runs[i].name, runs[i].values)
        case None => None
        case Some(vs) => Some(m[runs[i].name := vs])
  {
    assert runs[..i + 1][..i] == runs[..i];
  }

  /** With each name's headers adjacent, the map holds every value of every name. */
  lemma GroupedAllValues(wire: seq<Header>)
    requires Contiguous(wire)
    ensures forall n :: n in Grouped(wire) ==> Grouped(wire)[n] == AnonymizeAll(n, ValuesOf(wire, n))
  {
    forall n | n in Grouped(wire) ensures Grouped(wire)[n] == AnonymizeAll(n, ValuesOf(wire, n)) {
      GroupedContiguous(wire, n);
    }
  }

  /** A well-formed `Set-Cookie` value keeps its name and attributes and loses its value. */
  lemma {:induction false} BlankedCookie(c: Cookies.Cookie)
    requires Cookies.ValidName(c.name) && Cookies.ValidValue(c.value) && Cookies.ValidAttributes(c.attributes)
    ensures AnonymizeValue(SetCookie, Cookies.Serialize(c)) == c.name + "=" + c.attributes
  {
    var s := Cookies.Serialize(c);
    Cookies.ParseSerialize(c);
    assert AnonymizeValueAsWritten(SetCookie, s) == Ok(Cookies.Serialize(Cookies.Blanked(c)));
    Cookies.SerializeBlanked(c);
  }
}
