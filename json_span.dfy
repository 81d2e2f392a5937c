/**
  The extraction `re.search(r'\{.*\}', reply, re.DOTALL)` that both the contact finder
  and the content generator apply to the text the language model returns: the
  leftmost match of "a `{`, anything (line breaks included), a `}`", as long as
  possible at that start.
 */
module JsonSpan {
  import opened Options

  /** `s[i..j]` matches `\{.*\}` with `.` matching every character. */
  ghost predicate BraceSpan(s: string, i: int, j: int) {
    0 <= i && i + 2 <= j <= |s| && s[i] == '{' && s[j - 1] == '}'
  }

  function FirstIndexOf(s: string, c: char): (r: Option<nat>)
    ensures r.Some? ==> r.value < |s| && s[r.value] == c && forall k :: 0 <= k < r.value ==> s[k] != c
    ensures r.None? ==> forall k :: 0 <= k < |s| ==> s[k] != c
  {
    if s == [] then None
    else if s[0] == c then Some(0)
    else match FirstIndexOf(s[1..], c)
      case None => None
      case Some(k) => Some(k + 1)
  }

  function LastIndexOf(s: string, c: char): (r: Option<nat>)
    ensures r.Some? ==> r.value < |s| && s[r.value] == c && forall k :: r.value < k < |s| ==> s[k] != c
    ensures r.None? ==> forall k :: 0 <= k < |s| ==> s[k] != c
  {
    if s == [] then None
    else if s[|s| - 1] == c then Some(|s| - 1)
    else LastIndexOf(s[..|s| - 1], c)
  }

  /** The text `json.loads` is given: from the first `{` to the last `}`, both included, or nothing. */
  function ExtractJsonSpan(s: string): Option<string> {
    match FirstIndexOf(s, '{')
    case None => None
    case Some(i) =>
      match LastIndexOf(s, '}')
      case None => None
      case Some(j) => if i < j then Some(s[i..j + 1]) else None
  }

  /**
    The extraction finds nothing exactly when no span of `s` matches the pattern, and
    otherwise yields the leftmost match, the longest one at that start.
   */
  lemma ExtractJsonSpanIsLeftmostLongest(s: string)
    ensures ExtractJsonSpan(s).None? <==> forall i, j :: !BraceSpan(s, i, j)
    ensures ExtractJsonSpan(s).Some? ==> exists i, j :: (BraceSpan(s, i, j) && ExtractJsonSpan(s).value == s[i..j]
      && forall i', j' :: BraceSpan(s, i', j') ==> i < i' || (i == i' && j' <= j))
  {
    var first, last := FirstIndexOf(s, '{'), LastIndexOf(s, '}');
    if first.Some? && last.Some? && first.value < last.value {
      assert BraceSpan(s, first.value, last.value + 1);
    }
  }

  /** A reply wrapped in a Markdown code fence yields the object inside it. */
  lemma FencedReplyYieldsObject(prefix: string, obj: string, suffix: string)
    requires '{' !in prefix && '}' !in suffix
    requires |obj| >= 2 && obj[0] == '{' && obj[|obj| - 1] == '}'
    ensures ExtractJsonSpan(prefix + obj + suffix) == Some(obj)
  {
    var s := prefix + obj + suffix;
    var i, j := |prefix|, |prefix| + |obj|;
    assert s[i..j] == obj;
    assert BraceSpan(s, i, j);
    ExtractJsonSpanIsLeftmostLongest(s);
    var r := ExtractJsonSpan(s);
    assert r.Some?;
    var i0, j0 :| BraceSpan(s, i0, j0) && r.value == s[i0..j0]
      && forall i', j' :: BraceSpan(s, i', j') ==> i0 < i' || (i0 == i' && j' <= j0);
    assert BraceSpan(s, i0, j0);
    assert 0 <= i0 < |s|;
    assert i0 == i && j0 == j;
  }

  /**
    Two objects in one reply come back as one span running from the first `{` to the
    last `}`, text between them included.
   */
  lemma TwoObjectsMerge(a: string, middle: string, b: string)
    requires |a| >= 2 && a[0] == '{' && a[|a| - 1] == '}'
    requires |b| >= 2 && b[0] == '{' && b[|b| - 1] == '}'
    ensures ExtractJsonSpan(a + middle + b) == Some(a + middle + b)
  {
    var s := a + middle + b;
    assert s[0] == '{' && s[|s| - 1] == '}';
    assert BraceSpan(s, 0, |s|);
    assert s[0..|s|] == s;
    ExtractJsonSpanIsLeftmostLongest(s);
  }
}
