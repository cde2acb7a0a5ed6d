/**
 * The JavaScript string operations the pipeline relies on:
 * `s.indexOf(d)`, `s.split(d)` for a non-empty separator, and `parts.join(sep)`.
 */
module JsText {
  import opened Wrappers

  /** `d` occurs in `s` starting at index `i`. */
  predicate OccursAt(s: string, d: string, i: nat) {
    i + |d| <= |s| && s[i..i + |d|] == d
  }

  predicate Contains(s: string, d: string) {
    exists i: nat :: i <= |s| && OccursAt(s, d, i)
  }

  /** `s.indexOf(d, from)`: the first index at or after `from` where `d` occurs (`None` for -1). */
  function IndexFrom(s: string, d: string, from: nat): (r: Option<nat>)
    requires |d| > 0
    ensures r.Some? ==> from <= r.value && OccursAt(s, d, r.value)
    ensures r.Some? ==> forall j: nat :: from <= j < r.value ==> !OccursAt(s, d, j)
    ensures r.None? ==> forall j: nat :: from <= j ==> !OccursAt(s, d, j)
    decreases |s| - from
  {
    if from + |d| > |s| then None
    else if s[from..from + |d|] == d then Some(from)
    else IndexFrom(s, d, from + 1)
  }

  /** Where the first piece of `s.split(d)` ends: the first occurrence of `d`, or the end of `s`. */
  function FirstOrEnd(s: string, d: string): (k: nat)
    requires |d| > 0
    ensures k <= |s|
    ensures forall j: nat :: j < k ==> !OccursAt(s, d, j)
    ensures k == |s| || OccursAt(s, d, k)
  {
    match IndexFrom(s, d, 0)
    case None => |s|
    case Some(i) => i
  }

  /** `s.split(d)` for a non-empty separator: the pieces between successive
      non-overlapping occurrences of `d`, scanned left to right. */
  function Split(s: string, d: string): (parts: seq<string>)
    requires |d| > 0
    ensures |parts| >= 1
    decreases |s|
  {
    match IndexFrom(s, d, 0)
    case None => [s]
    case Some(i) => [s[..i]] + Split(s[i + |d|..], d)
  }

  /** `parts.join(sep)`. */
  function Join(parts: seq<string>, sep: string): (r: string)
    ensures |parts| >= 1 ==> |parts[0]| <= |r| && r[..|parts[0]|] == parts[0]
  {
    if |parts| == 0 then ""
    else if |parts| == 1 then parts[0]
    else parts[0] + sep + Join(parts[1..], sep)
  }

  /** `s.split(d)[0]` is the text of `s` before the first `d`, or all of `s`. */
  lemma SplitHead(s: string, d: string)
    requires |d| > 0
    ensures Split(s, d)[0] == s[..FirstOrEnd(s, d)]
  {
  }

  /** `s.split(d)[1]` exists exactly when `d` occurs in `s`; it is the text
      between the first occurrence and the next one (or the end). */
  lemma SplitSecond(s: string, d: string)
    requires |d| > 0
    ensures |Split(s, d)| >= 2 <==> Contains(s, d)
    ensures Contains(s, d) ==>
      IndexFrom(s, d, 0).Some? &&
      var rest := s[IndexFrom(s, d, 0).value + |d|..];
      Split(s, d)[1] == rest[..FirstOrEnd(rest, d)]
  {
    match IndexFrom(s, d, 0)
    case None =>
      assert Split(s, d) == [s];
    case Some(i) =>
      assert i <= |s| && OccursAt(s, d, i);
      var rest := s[i + |d|..];
      assert Split(s, d) == [s[..i]] + Split(rest, d);
      SplitHead(rest, d);
  }

  /** Joining the pieces of a split with the same separator gives back the string. */
  lemma {:induction false} JoinOfSplit(s: string, d: string)
    requires |d| > 0
    ensures Join(Split(s, d), d) == s
    decreases |s|
  {
    match IndexFrom(s, d, 0)
    case None =>
    case Some(i) =>
      var rest := s[i + |d|..];
      var tail := Split(rest, d);
      JoinOfSplit(rest, d);
      var parts := [s[..i]] + tail;
      assert Split(s, d) == parts;
      assert |parts| >= 2 && parts[0] == s[..i] && parts[1..] == tail;
      assert Join(parts, d) == s[..i] + d + rest;
      assert s == s[..i] + s[i..i + |d|] + rest;
  }

  /** `p` followed by `sep` has its first `sep` right after `p`. */
  predicate Delimits(p: string, sep: string) {
    forall j: nat :: j < |p| ==> !OccursAt(p + sep, sep, j)
  }

  lemma FirstAfterPiece(p: string, sep: string, rest: string)
    requires |sep| > 0 && Delimits(p, sep)
    ensures IndexFrom(p + sep + rest, sep, 0) == Some(|p|)
  {
    var s := p + sep + rest;
    assert OccursAt(s, sep, |p|) by {
      assert s[|p|..|p| + |sep|] == sep;
    }
    forall j: nat | j < |p|
      ensures !OccursAt(s, sep, j)
    {
      if OccursAt(s, sep, j) {
        assert s[j..j + |sep|] == (p + sep)[j..j + |sep|];
        assert OccursAt(p + sep, sep, j);
        assert false;
      }
    }
  }

  lemma NoOccurrenceInPiece(p: string, sep: string)
    requires |sep| > 0 && Delimits(p, sep)
    ensures IndexFrom(p, sep, 0) == None
  {
    forall j: nat | j + |sep| <= |p|
      ensures !OccursAt(p, sep, j)
    {
      assert p[j..j + |sep|] == (p + sep)[j..j + |sep|];
      assert !OccursAt(p + sep, sep, j);
    }
  }

  /** A piece that runs into the separator only where the separator begins is split off first. */
  lemma SplitCons(p: string, sep: string, rest: string)
    requires |sep| > 0 && Delimits(p, sep)
    ensures Split(p + sep + rest, sep) == [p] + Split(rest, sep)
  {
    var s := p + sep + rest;
    FirstAfterPiece(p, sep, rest);
    assert s[..|p|] == p;
    assert s[|p| + |sep|..] == rest;
  }

  /** Every piece runs into the separator only where the separator begins. */
  predicate AllDelimit(parts: seq<string>, sep: string) {
    forall k :: 0 <= k < |parts| ==> Delimits(parts[k], sep)
  }

  /** Splitting a join gives back the pieces, provided no piece runs into the separator. */
  lemma {:induction false} SplitOfJoin(parts: seq<string>, sep: string)
    requires |sep| > 0 && |parts| >= 1 && AllDelimit(parts, sep)
    ensures Split(Join(parts, sep), sep) == parts
    decreases |parts|
  {
    assert Delimits(parts[0], sep);
    if |parts| == 1 {
      NoOccurrenceInPiece(parts[0], sep);
    } else {
      var tail := parts[1..];
      assert AllDelimit(tail, sep) by {
        forall k | 0 <= k < |tail| ensures Delimits(tail[k], sep) {
          assert tail[k] == parts[k + 1];
        }
      }
      var rest := Join(tail, sep);
      SplitCons(parts[0], sep, rest);
      SplitOfJoin(tail, sep);
      assert Join(parts, sep) == parts[0] + sep + rest;
      assert parts == [parts[0]] + tail;
    }
  }

  /** An occurrence cuts the string into what precedes it, the separator, and what follows. */
  lemma CutAt(s: string, d: string, i: nat)
    requires OccursAt(s, d, i)
    ensures s == s[..i] + d + s[i + |d|..]
  {
    assert s == s[..i] + s[i..i + |d|] + s[i + |d|..];
  }

  /** An occurrence in a suffix is an occurrence in the whole string, shifted. */
  lemma OccursInSuffix(s: string, p: nat, d: string, j: nat)
    requires p <= |s|
    ensures OccursAt(s[p..], d, j) <==> OccursAt(s, d, p + j)
  {
    if p + j + |d| <= |s| {
      assert s[p..][j..j + |d|] == s[p + j..p + j + |d|];
    }
  }

  /** An occurrence that fits in a prefix is an occurrence in the whole string. */
  lemma OccursInPrefix(s: string, n: nat, d: string, j: nat)
    requires n <= |s| && j + |d| <= n
    ensures OccursAt(s[..n], d, j) <==> OccursAt(s, d, j)
  {
    assert s[..n][j..j + |d|] == s[j..j + |d|];
  }

  /** A string lacking one of the characters of `d` does not contain `d`. */
  lemma AbsentCharRulesOut(s: string, d: string, k: nat)
    requires k < |d| && d[k] !in s
    ensures !Contains(s, d)
    ensures IndexFrom(s, d, 0) == None
  {
  }

  /** For a two-character separator whose characters differ, a piece that does not
      contain it runs into it only where the separator itself begins. */
  lemma TwoCharSeparatorDelimits(p: string, sep: string)
    requires |sep| == 2 && sep[0] != sep[1] && !Contains(p, sep)
    ensures Delimits(p, sep)
  {
    forall j: nat | j < |p|
      ensures !OccursAt(p + sep, sep, j)
    {
      if j + 2 <= |p| {
        assert (p + sep)[j..j + 2] == p[j..j + 2];
        assert !OccursAt(p, sep, j);
      } else {
        assert (p + sep)[j..j + 2][1] == sep[0];
      }
    }
  }

  /** A piece lacking the separator's first character runs into it only where the separator begins. */
  lemma FirstCharAbsentDelimits(p: string, sep: string)
    requires |sep| > 0 && sep[0] !in p
    ensures Delimits(p, sep)
  {
    forall j: nat | j < |p|
      ensures !OccursAt(p + sep, sep, j)
    {
      if j + |sep| <= |p| + |sep| {
        assert (p + sep)[j..j + |sep|][0] == p[j];
      }
    }
  }

  /** Joining a non-empty tail after a first piece puts one separator between them. */
  lemma JoinCons(first: string, tail: seq<string>, sep: string)
    requires |tail| >= 1
    ensures Join([first] + tail, sep) == first + sep + Join(tail, sep)
  {
    assert ([first] + tail)[1..] == tail;
  }

  /** A one-character separator occurs exactly where that character stands. */
  lemma OneCharOccurs(s: string, c: char, i: nat)
    ensures OccursAt(s, [c], i) <==> i < |s| && s[i] == c
  {
    if i < |s| {
      assert s[i..i + 1] == [s[i]];
    }
  }
}
