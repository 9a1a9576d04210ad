/** Searching strings for a character, as `str::find` and `str::split_once` do. */
module Text {
  import opened Wrappers

  /** No `c` anywhere in `s`. */
  predicate Lacks(s: string, c: char) {
    forall k :: 0 <= k < |s| ==> s[k] != c
  }

  /** Position of the first `c` in `s`. */
  function IndexOf(s: string, c: char): (r: Option<nat>)
    ensures r.Some? ==> r.value < |s| && s[r.value] == c && Lacks(s[..r.value], c)
    ensures r.None? <==> Lacks(s, c)
    decreases |s|
  {
    if |s| == 0 then None
    else if s[0] == c then Some(0)
    else
      match IndexOf(s[1..], c)
      case None => None
      case Some(i) => Some(i + 1)
  }

  /** The first `c` of `a + b` lies in `b` when `a` has none. */
  lemma {:induction false} IndexOfAfter(a: string, b: string, c: char)
    requires Lacks(a, c)
    ensures IndexOf(a + b, c) == if IndexOf(b, c).Some? then Some(|a| + IndexOf(b, c).value) else None
    decreases |a|
  {
    if |a| == 0 {
      assert a + b == b;
    } else {
      assert (a + b)[0] == a[0] && (a + b)[1..] == a[1..] + b;
      IndexOfAfter(a[1..], b, c);
    }
  }

  /** `str::split_once(sep)`: the text before and after the first `sep`. */
  function SplitOnce(s: string, sep: char): (r: Option<(string, string)>)
    ensures r.Some? ==> s == r.value.0 + [sep] + r.value.1 && Lacks(r.value.0, sep)
    ensures r.None? <==> Lacks(s, sep)
  {
    match IndexOf(s, sep)
    case None => None
    case Some(i) =>
      assert s == s[..i] + [sep] + s[i + 1..];
      Some((s[..i], s[i + 1..]))
  }

  /** When `a` holds no separator, the split falls right after `a`. */
  lemma {:induction false} SplitOnceAt(a: string, b: string, sep: char)
    requires Lacks(a, sep)
    ensures SplitOnce(a + [sep] + b, sep) == Some((a, b))
  {
    var s := a + [sep] + b;
    IndexOfAfter(a, [sep] + b, sep);
    assert a + ([sep] + b) == s;
    assert IndexOf([sep] + b, sep) == Some(0);
    assert s[..|a|] == a && s[|a| + 1..] == b;
  }

  /** With two separators in `s`, the second is left in the text after the split. */
  lemma {:induction false} SplitOnceKeepsSecond(s: string, sep: char, i: nat, j: nat)
    requires i < j < |s| && s[i] == sep && s[j] == sep
    ensures SplitOnce(s, sep).Some? && !Lacks(SplitOnce(s, sep).value.1, sep)
  {
    var parts := SplitOnce(s, sep).value;
    var head, rest := parts.0, parts.1;
    assert s == head + [sep] + rest;
    assert |head| <= i by {
      forall k | 0 <= k < |head| ensures s[k] == head[k] {
      }
    }
    assert rest[j - |head| - 1] == s[j];
  }
}
