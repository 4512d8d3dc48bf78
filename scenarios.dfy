/**
 * Two concrete reply texts and what the extractor makes of them: two lists
 * separated by other text, and a list whose record holds a nested list of
 * records, which the lazy pattern cuts short at the inner "}]".
 */
module Scenarios {
  import opened Values
  import opened Extractor

  const TwoListText := "[{\"a\":1}] noise [{\"b\":2}]"

  const NestedText := "[{'a': [{'b': 1}]}]"

  /** The scan selects the two bracketed lists and nothing in between. */
  lemma TwoListSpans(s: string)
    requires s == TwoListText
    ensures Spans(s, 0) == [Span(0, 9), Span(16, 25)]
  {
    var r := [Span(0, 9), Span(16, 25)];
    assert LazyMatch(s, 0, 9);
    assert LazyMatch(s, 16, 25);
    assert NoMatchIn(s, 9, 16);
    assert NoMatchFrom(s, 25);
    assert IsFindAll(s, 25, []);
    assert IsFindAll(s, 9, r[1..]);
    FindAllUnique(s, 0, r);
  }

  /** The texts handed to the decoder are the two lists, in order. */
  lemma TwoListTexts(s: string)
    requires s == TwoListText
    ensures MatchTexts(s, 0) == ["[{\"a\":1}]", "[{\"b\":2}]"]
  {
    TwoListSpans(s);
    TextsOfTwoSpans(s, 0);
    TwoListSlices(s);
  }

  /** The two lists sit at indices 0 to 9 and 16 to 25. */
  lemma TwoListSlices(s: string)
    requires s == TwoListText
    ensures s[0..9] == "[{\"a\":1}]" && s[16..25] == "[{\"b\":2}]"
  {
  }

  /** The matched texts are the slices at the two selected spans. */
  lemma TextsOfTwoSpans(s: string, from: nat)
    requires |Spans(s, from)| == 2
    ensures MatchTexts(s, from)
         == [s[Spans(s, from)[0].start..Spans(s, from)[0].end], s[Spans(s, from)[1].start..Spans(s, from)[1].end]]
  {
  }

  /** When each list decodes to a one-record list, the result is both records in order. */
  lemma TwoListsConcatenate(s: string, decode: Decoder, a: Value, b: Value)
    requires s == TwoListText
    requires decode("[{\"a\":1}]") == Some(PyList([a]))
    requires decode("[{\"b\":2}]") == Some(PyList([b]))
    ensures Extracted(s, decode) == [a, b]
  {
    TwoListTexts(s);
    ConcatenateTwo(MatchTexts(s, 0), decode, a, b);
  }

  lemma ConcatenateTwo(ms: seq<string>, decode: Decoder, a: Value, b: Value)
    requires |ms| == 2
    requires decode(ms[0]) == Some(PyList([a]))
    requires decode(ms[1]) == Some(PyList([b]))
    ensures Contributions(ms, 2, decode) == [a, b]
  {
    assert Contributions(ms, 1, decode) == [a];
  }

  /** The first "}]" ends the match, so the nested record list is cut short and
      the outer list's tail is never selected. */
  lemma NestedListCutShort(s: string)
    requires s == NestedText
    ensures MatchTexts(s, 0) == ["[{'a': [{'b': 1}]"]
  {
    var r := [Span(0, 17)];
    assert LazyMatch(s, 0, 17);
    assert NoMatchFrom(s, 17);
    assert IsFindAll(s, 17, []);
    FindAllUnique(s, 0, r);
    var t := MatchTexts(s, 0);
    assert |t| == 1;
    assert t[0] == s[0..17] == "[{'a': [{'b': 1}]";
  }

  /** With a decoder that rejects the cut-short text, the nested list yields nothing. */
  lemma NestedListYieldsNothing(s: string, decode: Decoder)
    requires s == NestedText
    requires decode("[{'a': [{'b': 1}]").None?
    ensures Extracted(s, decode) == []
  {
    NestedListCutShort(s);
    ContributionOfOne("[{'a': [{'b': 1}]", decode);
  }
}
