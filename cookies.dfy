/**
 * The part of the `cookie` crate that header anonymisation relies on:
 * parsing one `Set-Cookie` value into its name, value and attributes
 * (the cookie syntax of section 4.1 of RFC 6265), and writing it back.
 * Attributes are kept as the raw text that follows the first `;`.
 */
module Cookies {
  import opened Wrappers
  import opened Text

  datatype Cookie = Cookie(name: string, value: string, attributes: string)

  /** The two ways `Cookie::parse` fails on a string. */
  datatype CookieParseError = MissingPair | EmptyName

  /** `char::is_whitespace`: the Unicode White_Space property. */
  predicate IsSpace(c: char) {
    || ('\t' <= c <= '\r') || c == ' ' || c == '\U{85}' || c == '\U{A0}' || c == '\U{1680}'
    || ('\U{2000}' <= c <= '\U{200A}') || c == '\U{2028}' || c == '\U{2029}' || c == '\U{202F}'
    || c == '\U{205F}' || c == '\U{3000}'
  }

  /** No white space at either end. */
  predicate Trimmed(s: string) {
    |s| == 0 || (!IsSpace(s[0]) && !IsSpace(s[|s| - 1]))
  }

  /** `str::trim`: white space off both ends. */
  function Trim(s: string): (t: string)
    ensures Trimmed(t)
    ensures forall c :: Lacks(s, c) ==> Lacks(t, c)
    ensures Trimmed(s) ==> t == s
    decreases |s|
  {
    if |s| > 0 && IsSpace(s[0]) then Trim(s[1..])
    else if |s| > 0 && IsSpace(s[|s| - 1]) then Trim(s[..|s| - 1])
    else s
  }

  /** Trimming leaves nothing exactly when the text is all white space. */
  lemma {:induction false} TrimEmpty(s: string)
    ensures |Trim(s)| == 0 <==> AllBlank(s)
    decreases |s|
  {
    if |s| > 0 && IsSpace(s[0]) {
      TrimEmpty(s[1..]);
      assert AllBlank(s) <==> AllBlank(s[1..]) by {
        if AllBlank(s[1..]) {
          forall k | 0 < k < |s| ensures IsSpace(s[k]) {
            assert s[k] == s[1..][k - 1];
          }
        }
      }
    } else if |s| > 0 && IsSpace(s[|s| - 1]) {
      TrimEmpty(s[..|s| - 1]);
      if |s| > 1 {
        assert s[..|s| - 1][0] == s[0];
      }
    } else if |s| > 0 {
      assert !IsSpace(s[0]);
    }
  }

  /** Only white space. */
  predicate AllBlank(s: string) {
    forall k :: 0 <= k < |s| ==> IsSpace(s[k])
  }

  /** `t` is what is left of `s` once some blanks are taken off each end. */
  predicate StripsBlanks(s: string, t: string) {
    exists i :: 0 <= i <= |s| - |t| && s[i..i + |t|] == t && AllBlank(s[..i]) && AllBlank(s[i + |t|..])
  }

  /** Trimming removes blanks at the ends and nothing else. */
  lemma {:induction false} TrimStripsBlanks(s: string)
    ensures StripsBlanks(s, Trim(s))
    decreases |s|
  {
    if |s| > 0 && IsSpace(s[0]) {
      TrimStripsBlanks(s[1..]);
      StripsLeadingBlank(s, Trim(s));
    } else if |s| > 0 && IsSpace(s[|s| - 1]) {
      TrimStripsBlanks(s[..|s| - 1]);
      StripsTrailingBlank(s, Trim(s));
    } else {
      assert s[0..0 + |s|] == s && s[..0] == [] && s[0 + |s|..] == [];
    }
  }

  /** Blanks stripped from the text after a leading blank are stripped from the whole. */
  lemma StripsLeadingBlank(s: string, t: string)
    requires |s| > 0 && IsSpace(s[0]) && StripsBlanks(s[1..], t)
    ensures StripsBlanks(s, t)
  {
    var s' := s[1..];
    var i :| 0 <= i <= |s'| - |t| && s'[i..i + |t|] == t && AllBlank(s'[..i]) && AllBlank(s'[i + |t|..]);
    LeadingWitness(s, t, i);
  }

  lemma LeadingWitness(s: string, t: string, i: nat)
    requires |s| > 0 && IsSpace(s[0]) && i + |t| <= |s| - 1
    requires s[1..][i..i + |t|] == t && AllBlank(s[1..][..i]) && AllBlank(s[1..][i + |t|..])
    ensures 0 <= i + 1 <= |s| - |t| && s[i + 1..i + 1 + |t|] == t && AllBlank(s[..i + 1]) && AllBlank(s[i + 1 + |t|..])
  {
    var s' := s[1..];
    assert s[i + 1..i + 1 + |t|] == s'[i..i + |t|];
    var head := s[..i + 1];
    assert AllBlank(head) by {
      forall k | 0 <= k < |head| ensures IsSpace(head[k]) {
        if k > 0 {
          assert head[k] == s'[..i][k - 1];
        }
      }
    }
    assert s[i + 1 + |t|..] == s'[i + |t|..];
  }

  /** Blanks stripped from the text before a trailing blank are stripped from the whole. */
  lemma StripsTrailingBlank(s: string, t: string)
    requires |s| > 0 && IsSpace(s[|s| - 1]) && StripsBlanks(s[..|s| - 1], t)
    ensures StripsBlanks(s, t)
  {
    var s' := s[..|s| - 1];
    var i :| 0 <= i <= |s'| - |t| && s'[i..i + |t|] == t && AllBlank(s'[..i]) && AllBlank(s'[i + |t|..]);
    TrailingWitness(s, t, i);
  }

  lemma TrailingWitness(s: string, t: string, i: nat)
    requires |s| > 0 && IsSpace(s[|s| - 1]) && i + |t| <= |s| - 1
    requires s[..|s| - 1][i..i + |t|] == t && AllBlank(s[..|s| - 1][..i]) && AllBlank(s[..|s| - 1][i + |t|..])
    ensures 0 <= i <= |s| - |t| && s[i..i + |t|] == t && AllBlank(s[..i]) && AllBlank(s[i + |t|..])
  {
    var s' := s[..|s| - 1];
    assert s[i..i + |t|] == s'[i..i + |t|];
    assert s[..i] == s'[..i];
    var rest := s[i + |t|..];
    assert AllBlank(rest) by {
      forall k | 0 <= k < |rest| ensures IsSpace(rest[k]) {
        if k < |rest| - 1 {
          assert rest[k] == s'[i + |t|..][k];
        }
      }
    }
  }

  /** What `Cookie::parse` yields as a name: non-empty, trimmed, no `=` or `;`. */
  predicate ValidName(name: string) {
    |name| > 0 && Trimmed(name) && Lacks(name, '=') && Lacks(name, ';')
  }

  /** The raw attribute text: empty, or starting at the first `;`. */
  predicate ValidAttributes(attributes: string) {
    |attributes| == 0 || attributes[0] == ';'
  }

  /** A value as `Cookie::parse` yields it: trimmed and without `;`. */
  predicate ValidValue(value: string) {
    Trimmed(value) && Lacks(value, ';')
  }

  /**
   * `Cookie::parse`: the text before the first `;` is the pair, split at
   * its first `=` into a trimmed name and value; the rest is attributes.
   */
  function Parse(s: string): (r: Result<Cookie, CookieParseError>)
    ensures r.Ok? ==> ValidName(r.value.name) && ValidValue(r.value.value) && ValidAttributes(r.value.attributes)
    ensures Lacks(s, '=') ==> r == Err(MissingPair)
    ensures match IndexOf(s, ';')
      case None => PairOutcome(s, r) && (r.Ok? ==> r.value.attributes == "")
      case Some(i) => PairOutcome(s[..i], r) && (r.Ok? ==> r.value.attributes == s[i..])
  {
    var cut := IndexOf(s, ';');
    var pair := if cut.Some? then s[..cut.value] else s;
    assert forall c :: Lacks(s, c) ==> Lacks(pair, c);
    ParsePair(pair, if cut.Some? then s[cut.value..] else "")
  }

  /** The pair `name=value` of a cookie, without `;`, then the attribute text. */
  function ParsePair(pair: string, attributes: string): (r: Result<Cookie, CookieParseError>)
    requires Lacks(pair, ';') && ValidAttributes(attributes)
    ensures r.Ok? ==> ValidName(r.value.name) && ValidValue(r.value.value) && r.value.attributes == attributes
    ensures Lacks(pair, '=') ==> r == Err(MissingPair)
    ensures PairOutcome(pair, r)
  {
    match IndexOf(pair, '=')
    case None => Err(MissingPair)
    case Some(j) =>
      var name := Trim(pair[..j]);
      TrimHalves(pair, j);
      if |name| == 0 then Err(EmptyName)
      else
        assert forall c :: Lacks(pair, c) ==> Lacks(pair[j + 1..], c);
        assert Lacks(pair[..j], '=');
        Ok(Cookie(name, Trim(pair[j + 1..]), attributes))
  }

  /**
   * What `Cookie::parse` makes of the pair before the first `;`: no `=` is
   * `MissingPair`; a name of white space only is `EmptyName`; otherwise the
   * name and value are the two sides of the first `=` without their
   * surrounding white space.
   */
  predicate PairOutcome(pair: string, r: Result<Cookie, CookieParseError>) {
    match IndexOf(pair, '=')
    case None => r == Err(MissingPair)
    case Some(j) =>
      && (r == Err(EmptyName) <==> AllBlank(pair[..j]))
      && (r.Ok? <==> !AllBlank(pair[..j]))
      && (r.Ok? ==> StripsBlanks(pair[..j], r.value.name) && StripsBlanks(pair[j + 1..], r.value.value))
  }

  /** Both sides of a split point, trimmed. */
  lemma TrimHalves(pair: string, j: nat)
    requires j < |pair|
    ensures |Trim(pair[..j])| == 0 <==> AllBlank(pair[..j])
    ensures StripsBlanks(pair[..j], Trim(pair[..j])) && StripsBlanks(pair[j + 1..], Trim(pair[j + 1..]))
  {
    TrimEmpty(pair[..j]);
    TrimStripsBlanks(pair[..j]);
    TrimStripsBlanks(pair[j + 1..]);
  }

  /** A name made of a no-break space alone trims to nothing, so the cookie is rejected. */
  lemma NoBreakSpaceNameIsEmpty()
    ensures Parse("\U{A0}=x") == Err(EmptyName)
  {
    assert IndexOf("\U{A0}=x", ';') == None;
    assert IndexOf("\U{A0}=x", '=') == Some(1);
    assert Trim("\U{A0}") == Trim("");
  }

  /** `Cookie::to_string`: `name=value` followed by the attributes. */
  function Serialize(c: Cookie): string {
    c.name + "=" + c.value + c.attributes
  }

  /** The pair of a valid cookie holds no `;`. */
  lemma PairLacksSemicolon(c: Cookie)
    requires ValidName(c.name) && ValidValue(c.value)
    ensures Lacks(c.name + "=" + c.value, ';')
  {
    var pair := c.name + "=" + c.value;
    forall k | 0 <= k < |pair| ensures pair[k] != ';' {
      if k < |c.name| { assert pair[k] == c.name[k]; }
      else if k > |c.name| { assert pair[k] == c.value[k - |c.name| - 1]; }
    }
  }

  /** The first `;` of a serialised cookie is where its attributes start. */
  lemma {:induction false} ParseCutsAtAttributes(pair: string, attributes: string)
    requires Lacks(pair, ';') && ValidAttributes(attributes)
    ensures Parse(pair + attributes) == ParsePair(pair, attributes)
  {
    var s := pair + attributes;
    IndexOfAfter(pair, attributes, ';');
    if |attributes| > 0 {
      assert IndexOf(attributes, ';') == Some(0);
      assert s[..|pair|] == pair && s[|pair|..] == attributes;
    } else {
      assert s == pair;
    }
  }

  /** The pair of a valid cookie splits back into its name and value. */
  lemma {:induction false} ParsePairSplits(c: Cookie)
    requires ValidName(c.name) && ValidValue(c.value) && ValidAttributes(c.attributes)
    ensures Lacks(c.name + "=" + c.value, ';')
    ensures ParsePair(c.name + "=" + c.value, c.attributes) == Ok(c)
  {
    PairLacksSemicolon(c);
    var pair := c.name + "=" + c.value;
    IndexOfAfter(c.name, "=" + c.value, '=');
    assert c.name + ("=" + c.value) == pair;
    assert IndexOf("=" + c.value, '=') == Some(0);
    assert pair[..|c.name|] == c.name;
    assert pair[|c.name| + 1..] == c.value;
  }

  /** Parsing a serialised cookie gives the same cookie back. */
  lemma ParseSerialize(c: Cookie)
    requires ValidName(c.name) && ValidValue(c.value) && ValidAttributes(c.attributes)
    ensures Parse(Serialize(c)) == Ok(c)
  {
    ParsePairSplits(c);
    ParseCutsAtAttributes(c.name + "=" + c.value, c.attributes);
  }

  /** `Cookie::set_value("")` followed by `to_string`. */
  function Blanked(c: Cookie): Cookie {
    c.(value := "")
  }

  /** A blanked cookie is written as its name, `=` and its attributes. */
  lemma SerializeBlanked(c: Cookie)
    ensures Serialize(Blanked(c)) == c.name + "=" + c.attributes
  {
    assert c.name + "=" + "" == c.name + "=";
  }
}
