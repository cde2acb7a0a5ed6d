/**
 * Carving the hydration payload out of the server-state script text
 * (the expression chain of `scrapeData`): split on the assignment marker,
 * keep piece `[1]`, split that on `};`, keep piece `[0]`, append `}`.
 */
module Carving {
  import opened Wrappers
  import opened JsText
  import opened Errors

  const Marker: string := "window.SEEK_REDUX_DATA = "
  const Terminator: string := "};"

  /** `serverState.split(Marker)[1].split('};')[0] + '}'`. When the marker is absent,
      piece `[1]` is `undefined` and calling `.split` on it throws. */
  function Carve(serverState: string): (r: Result<string, Error>)
    ensures r.Failure? <==> !Contains(serverState, Marker)
    ensures r.Failure? ==> r.error == MarkerNotFound
    ensures r.Success? ==> |r.value| >= 1 && r.value[|r.value| - 1] == '}'
    ensures r.Success? ==> !Contains(r.value, Terminator)
  {
    SplitSecond(serverState, Marker);
    var segments := Split(serverState, Marker);
    if |segments| < 2 then Failure(MarkerNotFound)
    else
      var segment := segments[1];
      SplitHead(segment, Terminator);
      ClosedHasNoTerminator(segment, Terminator, '}');
      Success(Split(segment, Terminator)[0] + "}")
  }

  /** A text cut before its first `t` and closed with a character that `t` does not end in contains no `t`. */
  lemma ClosedHasNoTerminator(segment: string, t: string, c: char)
    requires |t| == 2 && t[1] != c
    ensures !Contains(segment[..FirstOrEnd(segment, t)] + [c], t)
  {
    var k := FirstOrEnd(segment, t);
    var closed := segment[..k] + [c];
    forall j: nat | j <= |closed|
      ensures !OccursAt(closed, t, j)
    {
      if j + 2 <= k {
        assert closed[j..j + 2] == segment[j..j + 2];
        assert !OccursAt(segment, t, j);
      } else if j + 2 == |closed| {
        assert closed[j..j + 2][1] == closed[j + 1] == c;
      }
    }
  }

  /** Where the payload begins: just after the first marker `m`. */
  function PayloadStart(text: string, m: string): (p: nat)
    requires |m| > 0 && Contains(text, m)
    ensures |m| <= p <= |text| && OccursAt(text, m, p - |m|)
  {
    IndexFrom(text, m, 0).value + |m|
  }

  /** Piece `[1]` of splitting on `m`: from the payload start to the next `m` or the end. */
  function Segment(text: string, m: string): (seg: string)
    requires |m| > 0 && Contains(text, m)
    ensures PayloadStart(text, m) + |seg| <= |text|
    ensures seg == text[PayloadStart(text, m)..PayloadStart(text, m) + |seg|]
  {
    var rest := text[PayloadStart(text, m)..];
    rest[..FirstOrEnd(rest, m)]
  }

  /** Where the carved payload ends: at the first `t` in the segment, or at the segment's end. */
  function PayloadEnd(text: string, m: string, t: string): (e: nat)
    requires |m| > 0 && |t| > 0 && Contains(text, m)
    ensures PayloadStart(text, m) <= e <= |text|
  {
    PayloadStart(text, m) + FirstOrEnd(Segment(text, m), t)
  }

  /** Where the carved payload may stop: at a `t`, at another `m`, or at the end of the text. */
  predicate StopsAt(text: string, m: string, t: string, pos: nat) {
    pos == |text| || OccursAt(text, t, pos) || OccursAt(text, m, pos)
  }

  /** `stop` is the first position at or after `start` where the payload may stop. */
  predicate FirstStop(text: string, m: string, t: string, start: nat, stop: nat) {
    && start <= stop <= |text|
    && StopsAt(text, m, t, stop)
    && forall pos: nat :: start <= pos < stop ==> !StopsAt(text, m, t, pos)
  }

  lemma SegmentIsSecondPiece(text: string, m: string)
    requires |m| > 0 && Contains(text, m)
    ensures Split(text, m)[1] == Segment(text, m)
  {
    SplitSecond(text, m);
    var rest := text[IndexFrom(text, m, 0).value + |m|..];
    assert text[PayloadStart(text, m)..] == rest;
    assert Segment(text, m) == rest[..FirstOrEnd(rest, m)];
  }

  lemma SegmentStop(text: string, m: string, t: string)
    requires |m| > 0 && |t| > 0 && Contains(text, m)
    ensures StopsAt(text, m, t, PayloadEnd(text, m, t))
  {
    var start := PayloadStart(text, m);
    var rest := text[start..];
    var q := FirstOrEnd(rest, m);
    var segment := rest[..q];
    assert segment == Segment(text, m);
    var k := FirstOrEnd(segment, t);
    assert PayloadEnd(text, m, t) == start + k;
    if k < q {
      assert OccursAt(segment, t, k);
      OccursInPrefix(rest, q, t, k);
      OccursInSuffix(text, start, t, k);
    } else if q < |rest| {
      assert OccursAt(rest, m, q);
      OccursInSuffix(text, start, m, q);
    }
  }

  lemma NoMarkerInSegment(text: string, m: string, t: string, pos: nat)
    requires |m| > 0 && |t| > 0 && Contains(text, m)
    requires PayloadStart(text, m) <= pos < PayloadEnd(text, m, t)
    ensures !OccursAt(text, m, pos)
  {
    var start := PayloadStart(text, m);
    OccursInSuffix(text, start, m, pos - start);
  }

  lemma NoTerminatorInSegment(text: string, m: string, t: string, pos: nat)
    requires |m| > 0 && |t| == 2 && t[1] != m[0] && Contains(text, m)
    requires PayloadStart(text, m) <= pos < PayloadEnd(text, m, t)
    ensures !OccursAt(text, t, pos)
  {
    var start := PayloadStart(text, m);
    var rest := text[start..];
    var q := FirstOrEnd(rest, m);
    var segment := rest[..q];
    assert segment == Segment(text, m);
    var j: nat := pos - start;
    assert j < FirstOrEnd(segment, t);
    assert !OccursAt(segment, t, j);
    OccursInSuffix(text, start, t, j);
    if j + 2 <= q {
      OccursInPrefix(rest, q, t, j);
    } else if j + 2 <= |rest| {
      NextMarkerBlocks(rest, m, t, q, j);
    }
  }

  /** A `t` starting just before an `m` would need `t[1] == m[0]`. */
  lemma NextMarkerBlocks(rest: string, m: string, t: string, q: nat, j: nat)
    requires |m| > 0 && |t| == 2 && t[1] != m[0]
    requires OccursAt(rest, m, q) && j < q < j + 2
    ensures !OccursAt(rest, t, j)
  {
    assert rest[q] == rest[q..q + |m|][0] == m[0];
    if j + 2 <= |rest| {
      assert rest[j..j + 2][1] == rest[q];
    }
  }

  lemma NoStopBeforeSegmentEnd(text: string, m: string, t: string)
    requires |m| > 0 && |t| == 2 && t[1] != m[0] && Contains(text, m)
    ensures forall pos: nat :: PayloadStart(text, m) <= pos < PayloadEnd(text, m, t) ==> !StopsAt(text, m, t, pos)
  {
    var start := PayloadStart(text, m);
    var stop := PayloadEnd(text, m, t);
    forall pos: nat | start <= pos < stop
      ensures !StopsAt(text, m, t, pos)
    {
      NoMarkerInSegment(text, m, t, pos);
      NoTerminatorInSegment(text, m, t, pos);
    }
  }

  lemma PieceIsSegmentHead(text: string, m: string, t: string)
    requires |m| > 0 && |t| > 0 && Contains(text, m)
    ensures Split(Split(text, m)[1], t)[0] == Segment(text, m)[..FirstOrEnd(Segment(text, m), t)]
  {
    SegmentIsSecondPiece(text, m);
    SplitHead(Segment(text, m), t);
  }

  lemma SegmentHeadInText(text: string, m: string, t: string)
    requires |m| > 0 && |t| > 0 && Contains(text, m)
    ensures
      var start := PayloadStart(text, m);
      var k := FirstOrEnd(Segment(text, m), t);
      start + k <= |text| && Segment(text, m)[..k] == text[start..start + k]
  {
  }

  lemma PieceIsSegmentPrefix(text: string, m: string, t: string)
    requires |m| > 0 && |t| > 0 && Contains(text, m)
    ensures Split(Split(text, m)[1], t)[0] == text[PayloadStart(text, m)..PayloadEnd(text, m, t)]
  {
    PieceIsSegmentHead(text, m, t);
    SegmentHeadInText(text, m, t);
  }

  /** Carving with marker `m` and terminator `t`, characterised by positions. */
  lemma CarvedPieceCharacterised(text: string, m: string, t: string)
    requires |m| > 0 && |t| == 2 && t[1] != m[0] && Contains(text, m)
    ensures Split(Split(text, m)[1], t)[0] == text[PayloadStart(text, m)..PayloadEnd(text, m, t)]
    ensures FirstStop(text, m, t, PayloadStart(text, m), PayloadEnd(text, m, t))
  {
    PieceIsSegmentPrefix(text, m, t);
    SegmentStop(text, m, t);
    NoStopBeforeSegmentEnd(text, m, t);
  }

  /** The characters of the two separators that the examples below rely on. */
  lemma SeparatorChars()
    ensures Marker[0] == 'w' && Marker[11] == '_' && Terminator[1] == ';'
    ensures Terminator[0] != Terminator[1] && Terminator[1] != Marker[0] && '_' !in Terminator
  {
  }

  /** The carved text is the text after the first marker up to the first position
      where a `};`, a second marker or the end of the text begins, followed by `}`. */
  lemma CarveCharacterised(text: string)
    requires Contains(text, Marker)
    ensures Carve(text) == Success(text[PayloadStart(text, Marker)..PayloadEnd(text, Marker, Terminator)] + "}")
    ensures FirstStop(text, Marker, Terminator, PayloadStart(text, Marker), PayloadEnd(text, Marker, Terminator))
  {
    CarveIsPiece(text);
    SeparatorChars();
    CarvedPieceCharacterised(text, Marker, Terminator);
  }

  lemma CarveIsPiece(text: string)
    requires Contains(text, Marker)
    ensures Carve(text) == Success(Split(Split(text, Marker)[1], Terminator)[0] + "}")
  {
    SplitSecond(text, Marker);
  }
  /** With no `};` and no second marker after the first marker, the whole rest of
      the text is kept and closed with `}`. */
  lemma CarveWithoutTerminator(text: string)
    requires Contains(text, Marker)
    requires !Contains(text[PayloadStart(text, Marker)..], Terminator)
    requires !Contains(text[PayloadStart(text, Marker)..], Marker)
    ensures Carve(text) == Success(text[PayloadStart(text, Marker)..] + "}")
  {
    CarveCharacterised(text);
    var start := PayloadStart(text, Marker);
    var stop := PayloadEnd(text, Marker, Terminator);
    var j: nat := stop - start;
    OccursInSuffix(text, start, Terminator, j);
    OccursInSuffix(text, start, Marker, j);
    assert stop == |text|;
    assert text[start..stop] == text[start..];
  }

  /** With no `};` in the segment after the marker, the whole segment is kept and closed with `}`. */
  lemma CarveKeepsWholeSegment(text: string)
    requires Contains(text, Marker)
    requires !Contains(Segment(text, Marker), Terminator)
    ensures Carve(text) == Success(Segment(text, Marker) + "}")
  {
    CarveIsPiece(text);
    SegmentIsSecondPiece(text, Marker);
    var segment := Segment(text, Marker);
    SplitHead(segment, Terminator);
    var k := FirstOrEnd(segment, Terminator);
    assert k == |segment| by {
      assert !OccursAt(segment, Terminator, k);
    }
    assert segment[..k] == segment;
  }

  /** With marker `m` and terminator `t`: when `lead` runs into `m` only where `m` begins,
      no `m` follows, and `before` runs into `t` only where `t` begins, the piece kept
      from `lead + m + before + t + after` is `before`. */
  lemma PieceAround(lead: string, m: string, before: string, t: string, after: string)
    requires |m| > 0 && |t| > 0
    requires Delimits(lead, m) && !Contains(before + t + after, m) && Delimits(before, t)
    ensures Split(lead + m + (before + t + after), m) == [lead, before + t + after]
    ensures Split(before + t + after, t)[0] == before
  {
    var rest := before + t + after;
    SplitCons(lead, m, rest);
    assert IndexFrom(rest, m, 0) == None;
    assert Split(rest, m) == [rest];
    SplitCons(before, t, after);
  }

  /** A script `lead + Marker + before + "};" + after`, with no `w` in `lead`, no `_`
      in `before` or `after` and no `;` in `before`, carves to `before + "}"`. */
  lemma CarveAround(lead: string, before: string, after: string)
    requires 'w' !in lead && ';' !in before && '_' !in before && '_' !in after
    ensures Carve(lead + Marker + before + Terminator + after) == Success(before + "}")
  {
    var text := lead + Marker + (before + Terminator + after);
    assert text == lead + Marker + before + Terminator + after;
    SeparatorChars();
    assert '_' !in before + Terminator + after;
    FirstCharAbsentDelimits(lead, Marker);
    AbsentCharRulesOut(before + Terminator + after, Marker, 11);
    AbsentCharRulesOut(before, Terminator, 1);
    TwoCharSeparatorDelimits(before, Terminator);
    PieceAround(lead, Marker, before, Terminator, after);
    SplitSecond(text, Marker);
    CarveIsPiece(text);
  }

  /** A script that begins with the marker carves like one with an empty lead. */
  lemma CarveFromStart(before: string, after: string)
    requires ';' !in before && '_' !in before && '_' !in after
    ensures Carve(Marker + before + Terminator + after) == Success(before + "}")
  {
    CarveAround("", before, after);
    assert "" + Marker == Marker;
  }

  /** The character facts the two examples below rest on. */
  lemma ExampleTexts(before: string, after: string, truncatedBefore: string, truncatedAfter: string)
    requires before == "{\"a\":1,\"b\":{\"c\":2}" && after == "more()"
    requires truncatedBefore == "{\"a\":\"x" && truncatedAfter == "y\"};"
    ensures ';' !in before && '_' !in before && '_' !in after
    ensures before + "}" == "{\"a\":1,\"b\":{\"c\":2}}"
    ensures ';' !in truncatedBefore && '_' !in truncatedBefore && '_' !in truncatedAfter
    ensures truncatedBefore + "}" == "{\"a\":\"x}"
  {
  }

  /** The documented example: `window.SEEK_REDUX_DATA = {"a":1,"b":{"c":2}};more()`
      carves to `{"a":1,"b":{"c":2}}`. */
  lemma CarveNestedObjectExample(before: string, after: string)
    requires before == "{\"a\":1,\"b\":{\"c\":2}" && after == "more()"
    ensures Carve(Marker + before + Terminator + after) == Success("{\"a\":1,\"b\":{\"c\":2}}")
  {
    ExampleTexts(before, after, "{\"a\":\"x", "y\"};");
    CarveFromStart(before, after);
  }

  /** The heuristic's known fragility: a `};` inside a JSON string value ends the payload
      there, so `{"a":"x};y"};` carves to the truncated `{"a":"x}`. */
  lemma CarveTruncatesInsideString(before: string, after: string)
    requires before == "{\"a\":\"x" && after == "y\"};"
    ensures Carve(Marker + before + Terminator + after) == Success("{\"a\":\"x}")
  {
    ExampleTexts("{\"a\":1,\"b\":{\"c\":2}", "more()", before, after);
    CarveFromStart(before, after);
  }
}
