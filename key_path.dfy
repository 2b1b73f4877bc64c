/** How `Config._get` and `Config._set` cut a dot-notation key into the
    property they step into and the key they pass on. */
module KeyPath {

  /** `s.indexOf(c, from)`: the first index at or after `from` holding `c`,
      or -1 when there is none. */
  function IndexFrom(s: string, c: char, from: nat): (r: int)
    requires from <= |s|
    ensures -1 <= r < |s|
    ensures 0 <= r ==> from <= r && s[r] == c
    decreases |s| - from
  {
    if from == |s| then -1
    else if s[from] == c then from
    else IndexFrom(s, c, from + 1)
  }

  /** `s.indexOf(c)`: -1, or an index of `s` holding `c` (the first one, see
      IndexOfFirst). */
  function IndexOf(s: string, c: char): (r: int)
    ensures -1 <= r < |s|
    ensures 0 <= r ==> s[r] == c
  {
    IndexFrom(s, c, 0)
  }

  /** The search skips only indices not holding `c`. */
  lemma {:induction false} IndexFromFirst(s: string, c: char, from: nat)
    requires from <= |s|
    ensures IndexFrom(s, c, from) == -1 ==> forall j :: from <= j < |s| ==> s[j] != c
    ensures 0 <= IndexFrom(s, c, from) ==> forall j :: from <= j < IndexFrom(s, c, from) ==> s[j] != c
    decreases |s| - from
  {
    if from < |s| && s[from] != c {
      IndexFromFirst(s, c, from + 1);
    }
  }

  /** No character of `s` is `c`. */
  predicate Lacks(s: string, c: char) {
    forall j :: 0 <= j < |s| ==> s[j] != c
  }

  /** IndexOf finds the first occurrence, and reports -1 only when there is none. */
  lemma IndexOfFirst(s: string, c: char)
    ensures IndexOf(s, c) == -1 <==> Lacks(s, c)
    ensures 0 <= IndexOf(s, c) ==> Lacks(s[..IndexOf(s, c)], c)
  {
    IndexFromFirst(s, c, 0);
  }

  /** One step of a key: either it names a single property, or it names a
      property to step into and the rest of the key to resolve there. */
  datatype KeyStep = Leaf | Descend(head: string, rest: string)

  /** The split both `_get` and `_set` make: at the key's first '.', and
      only when that dot is not the first character (see SplitKeyShape). */
  function SplitKey(key: string): (r: KeyStep)
    ensures r.Descend? ==> |r.rest| < |key|
  {
    var i := IndexOf(key, '.');
    if i > 0 then Descend(key[..i], key[i + 1..]) else Leaf
  }

  /** A key splits exactly when it holds a dot that is not its first
      character; it then splits into a non-empty, dot-free head, that dot,
      and the rest. */
  lemma SplitKeyShape(key: string)
    ensures SplitKey(key).Leaf? <==> Lacks(key, '.') || key[0] == '.'
    ensures SplitKey(key).Descend? ==>
              key == SplitKey(key).head + "." + SplitKey(key).rest &&
              SplitKey(key).head != "" && Lacks(SplitKey(key).head, '.')
  {
    IndexOfFirst(key, '.');
    var i := IndexOf(key, '.');
    if i > 0 {
      assert key == key[..i] + "." + key[i + 1..];
    } else if i == 0 {
      assert key[0] == '.';
    }
  }

  /** The property a key reads or writes in the object it is applied to. */
  function Head(key: string): string {
    match SplitKey(key)
    case Leaf => key
    case Descend(head, _) => head
  }

  /** The property names a key addresses, outermost first. */
  function Segments(key: string): (r: seq<string>)
    ensures |r| >= 1
    ensures SplitKey(key).Leaf? ==> r == [key]
    decreases |key|
  {
    match SplitKey(key)
    case Leaf => [key]
    case Descend(head, rest) => [head] + Segments(rest)
  }

  /** The first segment is the property the key reads or writes first. */
  lemma SegmentsHead(key: string)
    ensures Segments(key)[0] == Head(key)
  {
  }

  /** The segments written back out with dots between them. */
  function JoinDots(segments: seq<string>): string
    requires |segments| >= 1
  {
    if |segments| == 1 then segments[0]
    else segments[0] + "." + JoinDots(segments[1..])
  }

  /** Cutting a key into segments loses nothing: joining them with dots
      gives the key back. */
  lemma {:induction false} SegmentsRoundTrip(key: string)
    ensures JoinDots(Segments(key)) == key
    decreases |key|
  {
    match SplitKey(key)
    case Leaf =>
    case Descend(head, rest) =>
      SplitKeyShape(key);
      SegmentsRoundTrip(rest);
      var t := Segments(rest);
      var s := [head] + t;
      assert Segments(key) == s;
      assert s[0] == head && s[1..] == t;
  }

  /** Every segment but the last is a non-empty name without a dot. */
  lemma {:induction false} SegmentsAreNames(key: string, i: nat)
    requires i < |Segments(key)| - 1
    ensures Segments(key)[i] != "" && Lacks(Segments(key)[i], '.')
    decreases |key|
  {
    match SplitKey(key)
    case Leaf =>
    case Descend(head, rest) =>
      var t := Segments(rest);
      assert Segments(key) == [head] + t;
      if i == 0 {
        SplitKeyShape(key);
      } else {
        SegmentsAreNames(rest, i - 1);
      }
  }

  /** The last segment does not split any further. */
  lemma {:induction false} LastSegmentIsLeaf(key: string)
    ensures SplitKey(Segments(key)[|Segments(key)| - 1]).Leaf?
    decreases |key|
  {
    match SplitKey(key)
    case Leaf =>
    case Descend(head, rest) =>
      var t := Segments(rest);
      assert Segments(key) == [head] + t;
      LastOfCons(head, t);
      LastSegmentIsLeaf(rest);
  }

  /** One more element in front leaves the last one where it was. */
  lemma LastOfCons(head: string, t: seq<string>)
    requires |t| >= 1
    ensures ([head] + t)[|t|] == t[|t| - 1]
  {
  }

  /** The key `_get` and `_set` pass on after `i` cuts: what is left once
      the first `i` segments have been stepped through. */
  function Tail(key: string, i: nat): (r: string)
    ensures i < |Segments(key)| ==> Segments(r) == Segments(key)[i..]
    decreases i
  {
    if i == 0 then key
    else match SplitKey(key)
      case Leaf => key
      case Descend(head, rest) =>
        var s := Segments(rest);
        assert Segments(key) == [head] + s;
        assert i < |Segments(key)| ==> Segments(key)[i..] == s[i - 1..];
        Tail(rest, i - 1)
  }

  lemma SplitThreeSegments()
    ensures SplitKey("a.b.c") == Descend("a", "b.c")
  {
    var k := "a.b.c";
    assert IndexFrom(k, '.', 1) == 1;
    assert k[..1] == "a" && k[2..] == "b.c";
  }

  lemma SplitTwoSegments()
    ensures SplitKey("b.c") == Descend("b", "c")
  {
    var k := "b.c";
    assert IndexFrom(k, '.', 1) == 1;
    assert k[..1] == "b" && k[2..] == "c";
  }

  /** The split on three sample keys: "a.b.c" steps
      into "a" with "b.c" left, while ".x" and "x" name single properties. */
  lemma SplitKeyExamples()
    ensures SplitKey("a.b.c") == Descend("a", "b.c")
    ensures Segments("a.b.c") == ["a", "b", "c"]
    ensures SplitKey(".x") == Leaf && SplitKey("x") == Leaf
  {
    SplitThreeSegments();
    SplitTwoSegments();
    assert Segments("c") == ["c"];
    assert Segments("b.c") == ["b", "c"];
  }

  // ---------------------------------------------------------------------
  // The split as the source writes it: `key.split(/\.(.*)$/)`.

  /** The characters a JavaScript `.` in a regular expression does not match. */
  predicate IsLineTerminator(c: char) {
    c == '\n' || c == '\r' || c == '\U{2028}' || c == '\U{2029}'
  }

  predicate NoLineTerminator(s: string) {
    forall i :: 0 <= i < |s| ==> !IsLineTerminator(s[i])
  }

  /** Where the pattern `\.(.*)$` first matches at or after `from`: the
      first '.' with no line terminator anywhere after it, or -1 when there
      is none. */
  function RegexDotFrom(key: string, from: nat): (r: int)
    requires from <= |key|
    ensures -1 <= r < |key|
    ensures 0 <= r ==> from <= r && key[r] == '.' && NoLineTerminator(key[r + 1..])
    decreases |key| - from
  {
    if from == |key| then -1
    else if key[from] == '.' && NoLineTerminator(key[from + 1..]) then from
    else RegexDotFrom(key, from + 1)
  }

  /** Where `key.split(/\.(.*)$/)` cuts `key`, or -1 when it does not. */
  function RegexDotIndex(key: string): int {
    RegexDotFrom(key, 0)
  }

  /** What the source's split yields: no split when the first dot is absent
      or at index 0; otherwise the two parts around the regex match, or, when
      the pattern does not match at all, a one-element array whose missing
      second part makes the recursive call throw a TypeError. */
  datatype RawSplit = Whole | Parts(head: string, rest: string) | NoMatch

  function SplitAsWritten(key: string): (r: RawSplit)
    ensures r.Whole? <==> SplitKey(key).Leaf?
    ensures r.Parts? ==> key == r.head + "." + r.rest
  {
    if IndexOf(key, '.') <= 0 then Whole
    else
      var j := RegexDotIndex(key);
      if j == -1 then NoMatch
      else
        assert key == key[..j] + "." + key[j + 1..];
        Parts(key[..j], key[j + 1..])
  }

  /** Without line terminators the regex matches at the first dot. */
  lemma {:induction false} RegexDotIsFirstDot(key: string, from: nat)
    requires NoLineTerminator(key) && from <= |key|
    ensures RegexDotFrom(key, from) == IndexFrom(key, '.', from)
    decreases |key| - from
  {
    if from < |key| {
      assert NoLineTerminator(key[from + 1..]);
      RegexDotIsFirstDot(key, from + 1);
    }
  }

  /** On keys without line terminators the written split is the first-dot split. */
  lemma SplitAsWrittenAgrees(key: string)
    requires NoLineTerminator(key)
    ensures SplitKey(key).Leaf? <==> SplitAsWritten(key).Whole?
    ensures SplitKey(key).Descend? ==>
              SplitAsWritten(key) == Parts(SplitKey(key).head, SplitKey(key).rest)
  {
    RegexDotIsFirstDot(key, 0);
  }

  lemma RegexFindsNoDot()
    ensures RegexDotIndex("a.b\nc") == -1
  {
    var k := "a.b\nc";
    assert !NoLineTerminator(k[2..]) by { assert k[2..][1] == '\n'; }
    assert RegexDotFrom(k, 5) == -1;
    assert RegexDotFrom(k, 4) == -1;
    assert RegexDotFrom(k, 3) == -1;
    assert RegexDotFrom(k, 2) == -1;
    assert RegexDotFrom(k, 1) == -1;
  }

  lemma SplitAtFirstDot()
    ensures SplitKey("a.b\nc") == Descend("a", "b\nc")
  {
    var k := "a.b\nc";
    assert IndexFrom(k, '.', 1) == 1;
    assert k[..1] == "a" && k[2..] == "b\nc";
  }

  lemma BrokenTailNotSplit()
    ensures SplitKey("a.b\nc") == Descend("a", "b\nc")
    ensures SplitAsWritten("a.b\nc") == NoMatch
  {
    SplitAtFirstDot();
    RegexFindsNoDot();
  }

  lemma RegexFindsLaterDot()
    ensures RegexDotIndex("a.b\nc.d") == 5
  {
    var k := "a.b\nc.d";
    assert NoLineTerminator(k[6..]) by { assert k[6..] == "d"; }
    assert RegexDotFrom(k, 5) == 5;
    assert RegexDotFrom(k, 4) == 5;
    assert RegexDotFrom(k, 3) == 5;
    assert RegexDotFrom(k, 2) == 5;
    assert !NoLineTerminator(k[2..]) by { assert k[2..][1] == '\n'; }
    assert RegexDotFrom(k, 1) == 5;
  }

  lemma BrokenTailSplitLater()
    ensures SplitKey("a.b\nc.d") == Descend("a", "b\nc.d")
    ensures SplitAsWritten("a.b\nc.d") == Parts("a.b\nc", "d")
  {
    var k := "a.b\nc.d";
    assert IndexFrom(k, '.', 1) == 1;
    assert k[..1] == "a" && k[2..] == "b\nc.d";
    RegexFindsLaterDot();
    assert k[..5] == "a.b\nc" && k[6..] == "d";
  }

  /** A line terminator after the first dot defeats the written split: the
      key either does not split at all (and the lookup throws) or splits at a
      later dot, stepping into a property whose name contains a dot. */
  lemma SplitAsWrittenDiffers()
    ensures SplitKey("a.b\nc") == Descend("a", "b\nc")
    ensures SplitAsWritten("a.b\nc") == NoMatch
    ensures SplitKey("a.b\nc.d") == Descend("a", "b\nc.d")
    ensures SplitAsWritten("a.b\nc.d") == Parts("a.b\nc", "d")
  {
    BrokenTailNotSplit();
    BrokenTailSplitLater();
  }
}
