/**
 * The bracketed-list extractor of the voice bot (`parse_langflow_response`).
 *
 * The extractor finds every non-overlapping occurrence of the regular
 * expression `\[\{.*?\}\]` (with `.` matching newlines too) in the workflow's
 * reply text, hands each occurrence to a literal decoder, and concatenates,
 * in order, the elements of every occurrence that decodes to a list.
 *
 * The regular expression is modelled by its meaning: a match starts at an
 * opening "[{" and, the `.*?` being lazy, ends with the first "}]" that lies
 * after it; matching is tried from left to right and resumes where the
 * previous match ended. The literal decoder is a parameter: `None` stands for
 * the ValueError or SyntaxError that `parse_langflow_response` catches.
 */
module Extractor {
  import opened Values

  type Decoder = string -> Option<Value>

  /** A match of the pattern: the characters s[start..end]. */
  datatype Span = Span(start: nat, end: nat)

  /** "[{" starts at index i of s. */
  predicate OpensAt(s: string, i: int) {
    0 <= i && i + 1 < |s| && s[i] == '[' && s[i + 1] == '{'
  }

  /** "}]" starts at index j of s. */
  predicate ClosesAt(s: string, j: int) {
    0 <= j && j + 1 < |s| && s[j] == '}' && s[j + 1] == ']'
  }

  // ---------------------------------------------------------------------
  // What the pattern means
  // ---------------------------------------------------------------------

  /** The pattern, tried at index b, matches exactly s[b..e]: an opening "[{"
      at b, a closing "}]" ending at e, and no "}]" in between. */
  ghost predicate LazyMatch(s: string, b: int, e: int) {
    && OpensAt(s, b)
    && b + 4 <= e
    && ClosesAt(s, e - 2)
    && forall k :: b + 2 <= k < e - 2 ==> !ClosesAt(s, k)
  }

  /** The pattern matches at all when tried at index b. */
  ghost predicate MatchableAt(s: string, b: int) {
    OpensAt(s, b) && exists k :: b + 2 <= k && ClosesAt(s, k)
  }

  /** No match of the pattern starts in [lo, hi). */
  ghost predicate NoMatchIn(s: string, lo: int, hi: int) {
    forall b :: lo <= b < hi ==> !MatchableAt(s, b)
  }

  /** No match of the pattern starts at lo or later. */
  ghost predicate NoMatchFrom(s: string, lo: int) {
    forall b :: lo <= b ==> !MatchableAt(s, b)
  }

  /** r is what a left-to-right scan for non-overlapping matches finds from
      index `from` on: the first span is the leftmost match at or after
      `from`, and the rest is what the scan finds from that span's end. */
  ghost predicate IsFindAll(s: string, from: int, r: seq<Span>)
    decreases |r|
  {
    if r == [] then NoMatchFrom(s, from)
    else
      && from <= r[0].start
      && NoMatchIn(s, from, r[0].start)
      && LazyMatch(s, r[0].start, r[0].end)
      && IsFindAll(s, r[0].end, r[1..])
  }

  /** m starts with "[{", ends with "}]", and holds no "}]" before its final two characters. */
  predicate ShortestBracketed(m: string) {
    && |m| >= 4
    && OpensAt(m, 0)
    && ClosesAt(m, |m| - 2)
    && forall k :: 0 <= k < |m| - 2 ==> !ClosesAt(m, k)
  }

  // ---------------------------------------------------------------------
  // The scan, as functions
  // ---------------------------------------------------------------------

  /** The first "[{" at or after index `from`. */
  function FindOpen(s: string, from: nat): (r: Option<nat>)
    decreases |s| - from
    ensures r.Some? ==> from <= r.value && OpensAt(s, r.value)
    ensures r.Some? ==> forall k :: from <= k < r.value ==> !OpensAt(s, k)
    ensures r.None? ==> forall k :: from <= k ==> !OpensAt(s, k)
  {
    if from + 1 >= |s| then None
    else if s[from] == '[' && s[from + 1] == '{' then Some(from)
    else FindOpen(s, from + 1)
  }

  /** The first "}]" at or after index `from`. */
  function FindClose(s: string, from: nat): (r: Option<nat>)
    decreases |s| - from
    ensures r.Some? ==> from <= r.value && ClosesAt(s, r.value)
    ensures r.Some? ==> forall k :: from <= k < r.value ==> !ClosesAt(s, k)
    ensures r.None? ==> forall k :: from <= k ==> !ClosesAt(s, k)
  {
    if from + 1 >= |s| then None
    else if s[from] == '}' && s[from + 1] == ']' then Some(from)
    else FindClose(s, from + 1)
  }

  /** The leftmost match at or after index `from`. When the first "[{" has no
      "}]" after it, no later "[{" has one either, so there is no match. */
  function NextSpan(s: string, from: nat): (r: Option<Span>)
    ensures r.Some? ==> from <= r.value.start && LazyMatch(s, r.value.start, r.value.end)
    ensures r.Some? ==> NoMatchIn(s, from, r.value.start)
    ensures r.None? ==> NoMatchFrom(s, from)
  {
    match FindOpen(s, from)
    case None => None
    case Some(b) =>
      match FindClose(s, b + 2)
      case None => None
      case Some(k) => Some(Span(b, k + 2))
  }

  /** The positions of all non-overlapping matches from index `from` on. */
  function Spans(s: string, from: nat): (r: seq<Span>)
    decreases |s| - from
    ensures forall i :: 0 <= i < |r| ==> from <= r[i].start && LazyMatch(s, r[i].start, r[i].end)
  {
    match NextSpan(s, from)
    case None => []
    case Some(m) => [m] + Spans(s, m.end)
  }

  /** The text of all non-overlapping matches from index `from` on. */
  function MatchTexts(s: string, from: nat): (r: seq<string>)
    decreases |s| - from
    ensures |r| == |Spans(s, from)|
    ensures forall i :: 0 <= i < |r| ==> r[i] == s[Spans(s, from)[i].start..Spans(s, from)[i].end]
  {
    match NextSpan(s, from)
    case None => []
    case Some(m) => [s[m.start..m.end]] + MatchTexts(s, m.end)
  }

  /** What one matched text adds to the result: the elements of the list it
      decodes to, and nothing when it fails to decode or is not a list. */
  function ListItems(decoded: Option<Value>): seq<Value> {
    match decoded
    case Some(PyList(elems)) => elems
    case _ => []
  }

  /** The result after handling the first n matched texts, one after the other. */
  function Contributions(matches: seq<string>, n: nat, decode: Decoder): seq<Value>
    requires n <= |matches|
  {
    if n == 0 then []
    else Contributions(matches, n - 1, decode) + ListItems(decode(matches[n - 1]))
  }

  /** The number of list elements the matched texts decode to, counted from the front. */
  function ItemCount(matches: seq<string>, decode: Decoder): nat
    decreases |matches|
  {
    if matches == [] then 0
    else |ListItems(decode(matches[0]))| + ItemCount(matches[1..], decode)
  }

  /** What the extractor returns for a reply text. */
  function Extracted(text: string, decode: Decoder): seq<Value> {
    var matches := MatchTexts(text, 0);
    Contributions(matches, |matches|, decode)
  }

  // ---------------------------------------------------------------------
  // The scan, as `parse_langflow_response` runs it
  // ---------------------------------------------------------------------

  /** Looks for the next match, scanning index by index for "[{" and then for "}]". */
  method FindNext(s: string, from: nat) returns (next: Option<Span>)
    ensures next == NextSpan(s, from)
  {
    var b := from;
    while b + 1 < |s| && !(s[b] == '[' && s[b + 1] == '{')
      invariant from <= b
      invariant forall k :: from <= k < b ==> !OpensAt(s, k)
      decreases |s| - b
    {
      b := b + 1;
    }
    if b + 1 >= |s| {
      assert FindOpen(s, from).None?;
      return None;
    }
    assert FindOpen(s, from) == Some(b) by {
      assert OpensAt(s, b);
    }
    var k := b + 2;
    while k + 1 < |s| && !(s[k] == '}' && s[k + 1] == ']')
      invariant b + 2 <= k
      invariant forall j :: b + 2 <= j < k ==> !ClosesAt(s, j)
      decreases |s| - k
    {
      k := k + 1;
    }
    if k + 1 >= |s| {
      assert FindClose(s, b + 2).None?;
      return None;
    }
    assert FindClose(s, b + 2) == Some(k) by {
      assert ClosesAt(s, k);
    }
    next := Some(Span(b, k + 2));
  }

  /** The texts of all non-overlapping matches, in order (`re.findall`). */
  method FindAll(s: string) returns (found: seq<string>)
    ensures found == MatchTexts(s, 0)
    ensures forall i :: 0 <= i < |found| ==> ShortestBracketed(found[i])
  {
    found := [];
    var pos := 0;
    while pos < |s|
      invariant found + MatchTexts(s, pos) == MatchTexts(s, 0)
      decreases |s| - pos
    {
      var next := FindNext(s, pos);
      match next
      case None =>
        break;
      case Some(m) =>
        found := found + [s[m.start..m.end]];
        pos := m.end;
    }
    MatchTextsShortest(s, 0);
  }

  /** Decodes every match and concatenates the elements of those that decode to a list. */
  method ParseLangflowResponse(responseText: string, decode: Decoder) returns (allObjects: seq<Value>)
    ensures allObjects == Extracted(responseText, decode)
  {
    var matches := FindAll(responseText);
    allObjects := [];
    for i := 0 to |matches|
      invariant allObjects == Contributions(matches, i, decode)
    {
      var parsed := decode(matches[i]);
      if parsed.Some? {
        if parsed.value.PyList? {
          allObjects := allObjects + parsed.value.elems;
        }
      }
      // else: main.py reports the text it could not decode and goes on
    }
  }

  // ---------------------------------------------------------------------
  // Properties of the scan
  // ---------------------------------------------------------------------

  /** A match of the pattern at b reaches exactly one end. */
  lemma LazyMatchUnique(s: string, b: int, e1: int, e2: int)
    requires LazyMatch(s, b, e1) && LazyMatch(s, b, e2)
    ensures e1 == e2
  {
  }

  /** The pattern matches at the start of each of its matches. */
  lemma LazyMatchIsMatchable(s: string, b: int, e: int)
    requires LazyMatch(s, b, e)
    ensures MatchableAt(s, b)
  {
    assert ClosesAt(s, e - 2);
  }

  /** The spans the scan selects are exactly the findall of the pattern. */
  lemma {:induction false} SpansAreFindAll(s: string, from: nat)
    ensures IsFindAll(s, from, Spans(s, from))
    decreases |s| - from
  {
    match NextSpan(s, from)
    case None =>
    case Some(m) =>
      SpansAreFindAll(s, m.end);
      assert Spans(s, from)[1..] == Spans(s, m.end);
  }

  /** Only one sequence of spans is the findall of the pattern, so the scan is
      pinned down by the pattern's meaning alone. */
  lemma {:induction false} FindAllUnique(s: string, from: nat, r: seq<Span>)
    requires IsFindAll(s, from, r)
    ensures r == Spans(s, from)
    decreases |r|
  {
    if r != [] {
      LazyMatchIsMatchable(s, r[0].start, r[0].end);
    }
    match NextSpan(s, from)
    case None =>
    case Some(m) =>
      LazyMatchIsMatchable(s, m.start, m.end);
      assert m.start == r[0].start;
      LazyMatchUnique(s, m.start, m.end, r[0].end);
      FindAllUnique(s, m.end, r[1..]);
  }

  /** Every span the scan selects is a match of the pattern, and the spans do
      not overlap and come in increasing position order. */
  lemma {:induction false} FindAllInOrder(s: string, from: nat, r: seq<Span>)
    requires IsFindAll(s, from, r)
    ensures forall i :: 0 <= i < |r| ==> from <= r[i].start && LazyMatch(s, r[i].start, r[i].end)
    ensures forall i, j :: 0 <= i < j < |r| ==> r[i].end <= r[j].start
    decreases |r|
  {
    if r != [] {
      var rest := r[1..];
      FindAllInOrder(s, r[0].end, rest);
      forall i | 0 < i < |r|
        ensures r[0].end <= r[i].start && LazyMatch(s, r[i].start, r[i].end)
      {
        assert r[i] == rest[i - 1];
      }
      forall i, j | 0 <= i < j < |r|
        ensures r[i].end <= r[j].start
      {
        if 0 < i {
          assert r[i] == rest[i - 1] && r[j] == rest[j - 1];
        }
      }
    }
  }

  /** The text of a match begins with "[{", ends with "}]" and holds no "}]"
      before its final two characters. */
  lemma MatchIsShortestBracketed(s: string, b: int, e: int)
    requires LazyMatch(s, b, e)
    ensures ShortestBracketed(s[b..e])
  {
    var m := s[b..e];
    forall k | 0 <= k < |m| - 2
      ensures !ClosesAt(m, k)
    {
      if ClosesAt(m, k) {
        assert ClosesAt(s, b + k);
      }
    }
  }

  /** Every text the scan selects begins with "[{", ends with "}]" and is the
      shortest such text from its opening "[{". */
  lemma MatchTextsShortest(s: string, from: nat)
    ensures forall i :: 0 <= i < |MatchTexts(s, from)| ==> ShortestBracketed(MatchTexts(s, from)[i])
  {
    var r := MatchTexts(s, from);
    var sp := Spans(s, from);
    forall i | 0 <= i < |r|
      ensures ShortestBracketed(r[i])
    {
      MatchIsShortestBracketed(s, sp[i].start, sp[i].end);
    }
  }

  /** Text with no "[{" at all yields nothing. */
  lemma NoOpeningNoObjects(text: string, decode: Decoder)
    requires forall i :: !OpensAt(text, i)
    ensures Extracted(text, decode) == []
  {
  }

  /** Text with no "}]" after any "[{" yields nothing. */
  lemma NoClosingNoObjects(text: string, decode: Decoder)
    requires forall b, k :: OpensAt(text, b) && b + 2 <= k ==> !ClosesAt(text, k)
    ensures Extracted(text, decode) == []
  {
  }

  // ---------------------------------------------------------------------
  // Properties of the extraction
  // ---------------------------------------------------------------------

  /** The result after n matched texts depends only on those n texts. */
  lemma {:induction false} ContributionsAgree(x: seq<string>, y: seq<string>, n: nat, decode: Decoder)
    requires n <= |x| && n <= |y| && x[..n] == y[..n]
    ensures Contributions(x, n, decode) == Contributions(y, n, decode)
  {
    if n > 0 {
      assert x[n - 1] == x[..n][n - 1] == y[..n][n - 1] == y[n - 1];
      assert x[..n - 1] == x[..n][..n - 1] == y[..n][..n - 1] == y[..n - 1];
      ContributionsAgree(x, y, n - 1, decode);
    }
  }

  /** Handling the texts of a and then the first k texts of b adds b's contributions after a's. */
  lemma {:induction false} ContributionsAppendUpTo(a: seq<string>, b: seq<string>, k: nat, decode: Decoder)
    requires k <= |b|
    ensures Contributions(a + b, |a| + k, decode) == Contributions(a, |a|, decode) + Contributions(b, k, decode)
  {
    var ab := a + b;
    if k == 0 {
      assert ab[..|a|] == a[..|a|];
      ContributionsAgree(ab, a, |a|, decode);
    } else {
      var last := ListItems(decode(b[k - 1]));
      assert ab[|a| + k - 1] == b[k - 1];
      calc {
        Contributions(ab, |a| + k, decode);
        Contributions(ab, |a| + k - 1, decode) + last;
        { ContributionsAppendUpTo(a, b, k - 1, decode); }
        (Contributions(a, |a|, decode) + Contributions(b, k - 1, decode)) + last;
        Contributions(a, |a|, decode) + (Contributions(b, k - 1, decode) + last);
        Contributions(a, |a|, decode) + Contributions(b, k, decode);
      }
    }
  }

  /** Handling two runs of matched texts one after the other concatenates
      their contributions: nothing is reordered, dropped or repeated. */
  lemma ContributionsAppend(a: seq<string>, b: seq<string>, decode: Decoder)
    ensures Contributions(a + b, |a + b|, decode) == Contributions(a, |a|, decode) + Contributions(b, |b|, decode)
  {
    ContributionsAppendUpTo(a, b, |b|, decode);
  }

  /** A single matched text contributes the elements of the list it decodes to,
      and nothing when it fails to decode or decodes to something else. */
  lemma ContributionOfOne(m: string, decode: Decoder)
    ensures decode(m).Some? && decode(m).value.PyList? ==> Contributions([m], 1, decode) == decode(m).value.elems
    ensures decode(m).None? || !decode(m).value.PyList? ==> Contributions([m], 1, decode) == []
  {
  }

  /** A text that fails to decode, or decodes to something other than a list,
      contributes nothing, and the texts after it are still handled. */
  lemma SkipUnusable(before: seq<string>, m: string, after: seq<string>, decode: Decoder)
    requires decode(m).None? || !decode(m).value.PyList?
    ensures Contributions(before + [m] + after, |before + [m] + after|, decode)
         == Contributions(before + after, |before + after|, decode)
  {
    var cBefore := Contributions(before, |before|, decode);
    var cAfter := Contributions(after, |after|, decode);
    ContributionOfOne(m, decode);
    ContributionsAppend(before, [m], decode);
    assert Contributions(before + [m], |before + [m]|, decode) == cBefore;
    ContributionsAppend(before + [m], after, decode);
    ContributionsAppend(before, after, decode);
  }

  /** The result is as long as all the decoded lists together. */
  lemma {:induction false} ContributionsLength(matches: seq<string>, decode: Decoder)
    ensures |Contributions(matches, |matches|, decode)| == ItemCount(matches, decode)
    decreases |matches|
  {
    if matches != [] {
      var rest := matches[1..];
      ContributionsLength(rest, decode);
      assert matches == [matches[0]] + rest;
      ContributionsAppend([matches[0]], rest, decode);
      ContributionOfOne(matches[0], decode);
    }
  }
}
