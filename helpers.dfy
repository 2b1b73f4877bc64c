/** `camelize`: split a string on a separator, upper-case the first character
    of every piece after the first, join the pieces and lower-case the first
    character of the result. */
module Helpers {

  // ---------------------------------------------------------------------
  // Characters.

  /** The characters the regular-expression class `\s` matches: the
      ECMAScript white space and line terminator characters. */
  predicate IsWhitespace(c: char) {
    c == '\t' || c == '\n' || c == '\U{000B}' || c == '\U{000C}' || c == '\r' ||
    c == ' ' || c == '\U{00A0}' || c == '\U{1680}' ||
    ('\U{2000}' <= c <= '\U{200A}') ||
    c == '\U{2028}' || c == '\U{2029}' || c == '\U{202F}' || c == '\U{205F}' ||
    c == '\U{3000}' || c == '\U{FEFF}'
  }

  /** A character the default separator `/[-\s]/g` matches. */
  predicate IsDefaultSeparator(c: char) {
    c == '-' || IsWhitespace(c)
  }

  predicate IsUpper(c: char) { 'A' <= c <= 'Z' }
  predicate IsLower(c: char) { 'a' <= c <= 'z' }

  /** `toUpperCase` on one character, over ASCII. */
  function Upper(c: char): (u: char)
    ensures !IsLower(u)
    ensures IsDefaultSeparator(u) <==> IsDefaultSeparator(c)
  {
    if IsLower(c) then (c as int - 32) as char else c
  }

  /** `toLowerCase` on one character, over ASCII. */
  function Lower(c: char): (l: char)
    ensures !IsUpper(l)
    ensures IsDefaultSeparator(l) <==> IsDefaultSeparator(c)
  {
    if IsUpper(c) then (c as int + 32) as char else c
  }

  lemma LowerIdempotent(c: char)
    ensures Lower(Lower(c)) == Lower(c)
  {
  }

  /** `` `${s.charAt(0).toUpperCase()}${s.slice(1)}` ``: `charAt(0)` of the
      empty string is the empty string. */
  function UpperFirst(s: string): (r: string)
    ensures |r| == |s|
  {
    if s == "" then "" else [Upper(s[0])] + s[1..]
  }

  /** `` `${s.charAt(0).toLowerCase()}${s.slice(1)}` `` */
  function LowerFirst(s: string): (r: string)
    ensures |r| == |s|
    ensures r == "" || !IsUpper(r[0])
  {
    if s == "" then "" else [Lower(s[0])] + s[1..]
  }

  // ---------------------------------------------------------------------
  // Splitting.

  /** The `separator` argument: the default character class, or a string. */
  datatype Separator = Default | Text(sep: string)

  /** `s.split(/[-\s]/g)`: the pieces between the separator characters, in
      order; the empty string gives one empty piece. */
  function SplitOnDefault(s: string): (pieces: seq<string>)
    ensures |pieces| >= 1
  {
    if s == "" then [""]
    else
      var rest := SplitOnDefault(s[1..]);
      if IsDefaultSeparator(s[0]) then [""] + rest
      else [[s[0]] + rest[0]] + rest[1..]
  }

  /** `str.split(separator)`; the split on a string separator, `SplitOnText`,
      is defined below with its lemmas. */
  function Split(s: string, separator: Separator): (pieces: seq<string>)
    ensures separator == Default ==>
              |pieces| == |Separators(s)| + 1 && Interleave(pieces, Separators(s)) == s
    ensures separator.Text? && separator.sep != "" ==> |pieces| >= 1 && JoinWith(pieces, separator.sep) == s
    ensures separator == Text("") ==> |pieces| == |s| && forall i :: 0 <= i < |s| ==> pieces[i] == [s[i]]
  {
    match separator
    case Default => SplitOnDefaultRoundTrip(s); SplitOnDefault(s)
    case Text(sep) => (if sep != "" then SplitOnTextRoundTrip(s, sep); SplitOnText(s, sep) else SplitOnText(s, sep))
  }

  // ---------------------------------------------------------------------
  // Joining.

  /** A piece as it is joined: upper-cased at its first character when a
      separator came before it. */
  function Capitalized(piece: string, capitalize: bool): string {
    if capitalize then UpperFirst(piece) else piece
  }

  /** The pieces after the first, each with its first character upper-cased,
      concatenated. */
  function ConcatUpper(pieces: seq<string>): (r: string)
    ensures |r| == TotalLength(pieces)
  {
    if pieces == [] then "" else UpperFirst(pieces[0]) + ConcatUpper(pieces[1..])
  }

  /** The number of characters in all the pieces together. */
  function TotalLength(pieces: seq<string>): nat {
    if pieces == [] then 0 else |pieces[0]| + TotalLength(pieces[1..])
  }

  /** `[_str[0]].concat(_str.splice(1).map(…)).join("")`. With no pieces,
      `_str[0]` is `undefined`, which `join` writes as the empty string. */
  function JoinCapitalized(pieces: seq<string>): (r: string)
    ensures |r| == TotalLength(pieces)
    ensures pieces != [] ==> r[..|pieces[0]|] == pieces[0]
  {
    if pieces == [] then "" else pieces[0] + ConcatUpper(pieces[1..])
  }

  /** `camelize(str, separator)`. */
  function Camelize(s: string, separator: Separator): (r: string)
    ensures s == "" ==> r == ""
    ensures r == "" || !IsUpper(r[0])
  {
    LowerFirst(JoinCapitalized(Split(s, separator)))
  }

  // ---------------------------------------------------------------------
  // What the default split yields.

  /** The separator characters of `s`, in order. */
  function Separators(s: string): (seps: string)
    ensures |seps| <= |s|
  {
    if s == "" then ""
    else if IsDefaultSeparator(s[0]) then [s[0]] + Separators(s[1..])
    else Separators(s[1..])
  }

  /** `pieces[0] + seps[0] + pieces[1] + … + pieces[n]`. */
  function Interleave(pieces: seq<string>, seps: string): string
    requires |pieces| == |seps| + 1
  {
    if seps == "" then pieces[0]
    else pieces[0] + [seps[0]] + Interleave(pieces[1..], seps[1..])
  }

  predicate NoSeparator(t: string) {
    forall j :: 0 <= j < |t| ==> !IsDefaultSeparator(t[j])
  }

  /** The default split cuts `s` at every separator character and nowhere
      else: there is one piece more than separators and putting the
      separators back between the pieces gives `s`. */
  lemma {:induction false} SplitOnDefaultRoundTrip(s: string)
    ensures |SplitOnDefault(s)| == |Separators(s)| + 1
    ensures Interleave(SplitOnDefault(s), Separators(s)) == s
  {
    if s != "" {
      var rest := SplitOnDefault(s[1..]);
      var seps := Separators(s[1..]);
      SplitOnDefaultRoundTrip(s[1..]);
      if IsDefaultSeparator(s[0]) {
        var pieces := [""] + rest;
        assert SplitOnDefault(s) == pieces && Separators(s) == [s[0]] + seps;
        assert pieces[1..] == rest;
        assert Interleave(pieces, [s[0]] + seps) == [s[0]] + s[1..];
      } else {
        var pieces := [[s[0]] + rest[0]] + rest[1..];
        assert SplitOnDefault(s) == pieces && Separators(s) == seps;
        assert pieces[1..] == rest[1..];
        InterleaveCons(s[0], rest, seps);
      }
      assert [s[0]] + s[1..] == s;
    }
  }

  /** Putting a character in front of the first piece puts it in front of
      the interleaving. */
  lemma InterleaveCons(c: char, pieces: seq<string>, seps: string)
    requires |pieces| == |seps| + 1
    ensures Interleave([[c] + pieces[0]] + pieces[1..], seps) == [c] + Interleave(pieces, seps)
  {
    var longer := [[c] + pieces[0]] + pieces[1..];
    assert longer[0] == [c] + pieces[0] && longer[1..] == pieces[1..];
  }

  /** No piece of the default split holds a separator character. */
  lemma {:induction false} SplitOnDefaultPieces(s: string)
    ensures forall i :: 0 <= i < |SplitOnDefault(s)| ==> NoSeparator(SplitOnDefault(s)[i])
  {
    if s != "" {
      var rest := SplitOnDefault(s[1..]);
      SplitOnDefaultPieces(s[1..]);
      if !IsDefaultSeparator(s[0]) {
        var first := [s[0]] + rest[0];
        assert NoSeparator(first) by {
          assert forall j :: 1 <= j < |first| ==> first[j] == rest[0][j - 1];
        }
        assert SplitOnDefault(s) == [first] + rest[1..];
      }
    }
  }

  // ---------------------------------------------------------------------
  // A reference definition: one pass over the characters.

  /** Drop each separator character and upper-case the first character after
      a run of them; `capitalize` says a separator came just before. */
  function Scan(s: string, capitalize: bool): string {
    if s == "" then ""
    else if IsDefaultSeparator(s[0]) then Scan(s[1..], true)
    else [if capitalize then Upper(s[0]) else s[0]] + Scan(s[1..], false)
  }

  /** Splitting on the default separator and joining capitalized pieces is
      the one-pass scan. */
  lemma {:induction false} ScanIsSplitJoin(s: string, capitalize: bool)
    ensures var pieces := SplitOnDefault(s);
      Scan(s, capitalize) ==
        Capitalized(pieces[0], capitalize) + ConcatUpper(pieces[1..])
  {
    if s != "" {
      var rest := SplitOnDefault(s[1..]);
      if IsDefaultSeparator(s[0]) {
        ScanIsSplitJoin(s[1..], true);
        var pieces := [""] + rest;
        assert pieces[1..] == rest;
        assert ConcatUpper(rest) == UpperFirst(rest[0]) + ConcatUpper(rest[1..]);
      } else {
        ScanIsSplitJoin(s[1..], false);
        var pieces := [[s[0]] + rest[0]] + rest[1..];
        assert pieces[1..] == rest[1..];
        assert UpperFirst(pieces[0]) == [Upper(s[0])] + rest[0] by {
          assert pieces[0][1..] == rest[0];
        }
      }
    }
  }

  lemma CamelizeIsScan(s: string)
    ensures Camelize(s, Default) == LowerFirst(Scan(s, false))
  {
    ScanIsSplitJoin(s, false);
  }

  /** The scan keeps every character that is not a separator. */
  lemma {:induction false} ScanLength(s: string, capitalize: bool)
    ensures |Scan(s, capitalize)| == |s| - |Separators(s)|
  {
    if s != "" {
      ScanLength(s[1..], IsDefaultSeparator(s[0]));
    }
  }

  lemma {:induction false} ScanHasNoSeparator(s: string, capitalize: bool)
    ensures NoSeparator(Scan(s, capitalize))
  {
    if s != "" {
      ScanHasNoSeparator(s[1..], IsDefaultSeparator(s[0]));
      if !IsDefaultSeparator(s[0]) {
        var t := Scan(s, capitalize);
        assert forall j :: 1 <= j < |t| ==> t[j] == Scan(s[1..], false)[j - 1];
      }
    }
  }

  /** Without separators there is nothing to drop or capitalize. */
  lemma {:induction false} ScanWithoutSeparators(s: string)
    requires NoSeparator(s)
    ensures Scan(s, false) == s
  {
    if s != "" {
      assert NoSeparator(s[1..]) by {
        assert forall j :: 0 <= j < |s[1..]| ==> s[1..][j] == s[j + 1];
      }
      ScanWithoutSeparators(s[1..]);
      assert [s[0]] + s[1..] == s;
    }
  }

  lemma LowerFirstKeepsNoSeparator(s: string)
    requires NoSeparator(s)
    ensures NoSeparator(LowerFirst(s))
  {
    if s != "" {
      assert forall j :: 1 <= j < |s| ==> LowerFirst(s)[j] == s[j];
    }
  }

  lemma LowerFirstIdempotent(s: string)
    ensures LowerFirst(LowerFirst(s)) == LowerFirst(s)
  {
    if s != "" {
      LowerIdempotent(s[0]);
    }
  }

  // ---------------------------------------------------------------------
  // Properties of `camelize` with the default separator.

  /** Every separator character is dropped and every other one kept. */
  lemma CamelizeLength(s: string)
    ensures |Camelize(s, Default)| == |s| - |Separators(s)|
  {
    CamelizeIsScan(s);
    ScanLength(s, false);
  }

  lemma CamelizeHasNoSeparator(s: string)
    ensures NoSeparator(Camelize(s, Default))
  {
    CamelizeIsScan(s);
    ScanHasNoSeparator(s, false);
    LowerFirstKeepsNoSeparator(Scan(s, false));
  }

  /** A string without separators only has its first character lower-cased. */
  lemma CamelizeWithoutSeparators(s: string)
    requires NoSeparator(s)
    ensures Camelize(s, Default) == LowerFirst(s)
  {
    CamelizeIsScan(s);
    ScanWithoutSeparators(s);
  }

  lemma CamelizeIdempotent(s: string)
    ensures Camelize(Camelize(s, Default), Default) == Camelize(s, Default)
  {
    var once := Camelize(s, Default);
    CamelizeHasNoSeparator(s);
    CamelizeWithoutSeparators(once);
    CamelizeIsScan(s);
    LowerFirstIdempotent(Scan(s, false));
  }

  lemma CamelizeExamples()
    ensures Camelize("a-b", Default) == "aB"
  {
    CamelizeIsScan("a-b");
    assert "a-b"[1..] == "-b" && "-b"[1..] == "b" && "b"[1..] == "";
    assert Scan("a-b", false) == "aB";
  }

  // ---------------------------------------------------------------------
  // A string separator.

  /** `sep` occurs in `s` starting at index `j`. */
  predicate OccursAt(s: string, sep: string, j: nat) {
    j + |sep| <= |s| && forall k :: 0 <= k < |sep| ==> s[j + k] == sep[k]
  }

  /** The first index at or after `from` where `sep` occurs in `s`, or -1. */
  function FindFrom(s: string, sep: string, from: nat): (r: int)
    requires from <= |s|
    ensures r == -1 || (from <= r && r + |sep| <= |s|)
    decreases |s| - from
  {
    if from + |sep| > |s| then -1
    else if OccursAt(s, sep, from) then from
    else FindFrom(s, sep, from + 1)
  }

  /** What `FindFrom` finds is an occurrence. */
  lemma {:induction false} FindFromFound(s: string, sep: string, from: nat)
    requires from <= |s|
    ensures var r := FindFrom(s, sep, from); r >= 0 ==> OccursAt(s, sep, r)
    decreases |s| - from
  {
    if from + |sep| <= |s| && !OccursAt(s, sep, from) {
      FindFromFound(s, sep, from + 1);
    }
  }

  /** Past a position where `sep` does not occur, the search goes on at the
      next one. */
  lemma FindFromSkips(s: string, sep: string, from: nat)
    requires sep != "" && from < |s| && !OccursAt(s, sep, from)
    ensures FindFrom(s, sep, from) == FindFrom(s, sep, from + 1)
  {
    if from + |sep| > |s| {
      assert FindFrom(s, sep, from + 1) == -1;
    }
  }

  /** `s.split(sep)` from index `from` on, for a non-empty `sep`: the text up
      to the leftmost occurrence, then the split of what follows it. */
  function SplitTextFrom(s: string, sep: string, from: nat): (pieces: seq<string>)
    requires sep != "" && from <= |s|
    ensures |pieces| >= 1
    decreases |s| - from
  {
    var i := FindFrom(s, sep, from);
    if i < 0 then [s[from..]]
    else [s[from..i]] + SplitTextFrom(s, sep, i + |sep|)
  }

  /** `s.split(sep)` for a string `sep`. An empty `sep` cuts `s` into its
      characters, and then the empty string gives no pieces at all. */
  function SplitOnText(s: string, sep: string): (pieces: seq<string>)
    ensures sep != "" ==> |pieces| >= 1
    ensures sep == "" ==> |pieces| == |s| && forall i :: 0 <= i < |s| ==> pieces[i] == [s[i]]
  {
    if sep == "" then Characters(s) else SplitTextFrom(s, sep, 0)
  }

  /** The one-character strings of `s`, in order. */
  function Characters(s: string): (pieces: seq<string>)
    ensures |pieces| == |s|
    ensures forall i :: 0 <= i < |s| ==> pieces[i] == [s[i]]
  {
    if s == "" then []
    else
      var rest := Characters(s[1..]);
      assert forall i :: 1 <= i < |s| ==> ([[s[0]]] + rest)[i] == [s[1..][i - 1]];
      [[s[0]]] + rest
  }

  /** `pieces` joined with `sep` between them: what `join(sep)` gives. */
  function JoinWith(pieces: seq<string>, sep: string): string
    requires |pieces| >= 1
  {
    if |pieces| == 1 then pieces[0] else pieces[0] + sep + JoinWith(pieces[1..], sep)
  }

  /** No occurrence of `sep` lies wholly inside `t`. */
  predicate Avoids(t: string, sep: string) {
    forall j: nat :: j <= |t| ==> !OccursAt(t, sep, j)
  }

  /** Every position `FindFrom` passes over is not an occurrence. */
  lemma {:induction false} FindFromFirst(s: string, sep: string, from: nat, j: nat)
    requires from <= j <= |s|
    requires var r := FindFrom(s, sep, from); r < 0 || j < r
    ensures !OccursAt(s, sep, j)
    decreases j - from
  {
    if from < j {
      FindFromFirst(s, sep, from + 1, j);
    }
  }

  /** A piece that ends where the search from its start stopped holds no
      occurrence. */
  lemma PieceAvoids(s: string, sep: string, from: nat, to: nat)
    requires sep != "" && from <= to <= |s|
    requires var r := FindFrom(s, sep, from); (r < 0 && to == |s|) || r == to
    ensures Avoids(s[from..to], sep)
  {
    var t := s[from..to];
    forall j: nat | j <= |t|
      ensures !OccursAt(t, sep, j)
    {
      if j + |sep| <= |t| {
        FindFromFirst(s, sep, from, from + j);
        assert forall k :: 0 <= k < |sep| ==> t[j..][k] == s[from + j..][k];
      }
    }
  }

  /** Joining the pieces with `sep` again gives back the text they came
      from. */
  lemma {:induction false} SplitTextJoins(s: string, sep: string, from: nat)
    requires sep != "" && from <= |s|
    ensures JoinWith(SplitTextFrom(s, sep, from), sep) == s[from..]
    decreases |s| - from
  {
    var i := FindFrom(s, sep, from);
    if i < 0 {
      assert SplitTextFrom(s, sep, from) == [s[from..]];
    } else {
      SplitTextJoins(s, sep, i + |sep|);
      JoinAtOccurrence(s, sep, from, i);
    }
  }

  lemma JoinAtOccurrence(s: string, sep: string, from: nat, i: nat)
    requires sep != "" && from <= |s| && i == FindFrom(s, sep, from)
    requires JoinWith(SplitTextFrom(s, sep, i + |sep|), sep) == s[i + |sep|..]
    ensures JoinWith(SplitTextFrom(s, sep, from), sep) == s[from..]
  {
    var rest := SplitTextFrom(s, sep, i + |sep|);
    var pieces := [s[from..i]] + rest;
    assert SplitTextFrom(s, sep, from) == pieces;
    assert JoinWith(pieces, sep) == s[from..i] + sep + s[i + |sep|..] by {
      assert pieces[1..] == rest;
    }
    assert s[from..] == s[from..i] + sep + s[i + |sep|..] by {
      FindFromFound(s, sep, from);
      var j := i + |sep|;
      assert from <= i <= j <= |s|;
      assert s[i..j] == sep;
      ThreeParts(s, from, i, j);
    }
  }

  /** A suffix cut at two indices. */
  lemma ThreeParts(s: string, a: nat, b: nat, c: nat)
    requires a <= b <= c <= |s|
    ensures s[a..] == s[a..b] + s[b..c] + s[c..]
  {
  }

  /** No piece holds an occurrence of `sep`. */
  lemma {:induction false} SplitTextAvoids(s: string, sep: string, from: nat)
    requires sep != "" && from <= |s|
    ensures forall k :: 0 <= k < |SplitTextFrom(s, sep, from)| ==> Avoids(SplitTextFrom(s, sep, from)[k], sep)
    decreases |s| - from
  {
    var i := FindFrom(s, sep, from);
    var pieces := SplitTextFrom(s, sep, from);
    if i < 0 {
      PieceAvoids(s, sep, from, |s|);
      assert s[from..|s|] == s[from..];
      assert pieces == [s[from..]];
    } else {
      SplitTextAvoids(s, sep, i + |sep|);
      PieceAvoids(s, sep, from, i);
      assert pieces == [s[from..i]] + SplitTextFrom(s, sep, i + |sep|);
    }
  }

  lemma SplitOnTextRoundTrip(s: string, sep: string)
    requires sep != ""
    ensures JoinWith(SplitOnText(s, sep), sep) == s
    ensures forall k :: 0 <= k < |SplitOnText(s, sep)| ==> Avoids(SplitOnText(s, sep)[k], sep)
  {
    SplitTextJoins(s, sep, 0);
    SplitTextAvoids(s, sep, 0);
    assert s[0..] == s;
  }

  /** A reference definition for a string separator: walk the text, skip
      each occurrence of `sep` met from the left and upper-case the first
      character after one. */
  function ScanText(s: string, sep: string, from: nat, capitalize: bool): string
    requires sep != "" && from <= |s|
    decreases |s| - from
  {
    if from == |s| then ""
    else if OccursAt(s, sep, from) then ScanText(s, sep, from + |sep|, true)
    else [if capitalize then Upper(s[from]) else s[from]] + ScanText(s, sep, from + 1, false)
  }

  /** Where there is no occurrence at `from`, the split from `from` is the
      split from the next index with `s[from]` put in front of its first piece. */
  lemma SplitTextStep(s: string, sep: string, from: nat)
    requires sep != "" && from < |s| && !OccursAt(s, sep, from)
    ensures var here := SplitTextFrom(s, sep, from);
      var next := SplitTextFrom(s, sep, from + 1);
      here[0] == [s[from]] + next[0] && here[1..] == next[1..]
  {
    var i := FindFrom(s, sep, from + 1);
    FindFromSkips(s, sep, from);
    var here := SplitTextFrom(s, sep, from);
    var next := SplitTextFrom(s, sep, from + 1);
    if i < 0 {
      assert here == [s[from..]] && next == [s[from + 1..]];
      assert s[from..] == [s[from]] + s[from + 1..];
    } else {
      var rest := SplitTextFrom(s, sep, i + |sep|);
      assert here == [s[from..i]] + rest && next == [s[from + 1..i]] + rest by {
        assert FindFrom(s, sep, from) == i;
      }
      assert s[from..i] == [s[from]] + s[from + 1..i];
    }
  }

  /** Where `sep` occurs at `from`, the split from `from` starts with an
      empty piece and goes on with the split after the occurrence. */
  lemma SplitTextAtOccurrence(s: string, sep: string, from: nat)
    requires sep != "" && from <= |s| && OccursAt(s, sep, from)
    ensures var here := SplitTextFrom(s, sep, from);
      here[0] == "" && here[1..] == SplitTextFrom(s, sep, from + |sep|)
  {
    assert FindFrom(s, sep, from) == from;
  }

  lemma {:induction false} ScanTextIsSplitJoin(s: string, sep: string, from: nat, capitalize: bool)
    requires sep != "" && from <= |s|
    ensures ScanJoins(s, sep, from, capitalize)
    decreases |s| - from
  {
    if from == |s| {
      assert FindFrom(s, sep, from) == -1;
      assert s[from..] == "";
    } else if OccursAt(s, sep, from) {
      ScanTextIsSplitJoin(s, sep, from + |sep|, true);
      ScanSkipsOccurrence(s, sep, from, capitalize);
    } else {
      ScanTextIsSplitJoin(s, sep, from + 1, false);
      ScanKeepsCharacter(s, sep, from, capitalize);
    }
  }

  /** The scan from `from` agrees with joining the split from `from`. */
  predicate ScanJoins(s: string, sep: string, from: nat, capitalize: bool)
    requires sep != "" && from <= |s|
  {
    var pieces := SplitTextFrom(s, sep, from);
    ScanText(s, sep, from, capitalize) == Capitalized(pieces[0], capitalize) + ConcatUpper(pieces[1..])
  }

  lemma ScanSkipsOccurrence(s: string, sep: string, from: nat, capitalize: bool)
    requires sep != "" && from < |s| && OccursAt(s, sep, from)
    requires ScanJoins(s, sep, from + |sep|, true)
    ensures ScanJoins(s, sep, from, capitalize)
  {
    SplitTextAtOccurrence(s, sep, from);
    var here := SplitTextFrom(s, sep, from);
    var rest := SplitTextFrom(s, sep, from + |sep|);
    assert ScanText(s, sep, from, capitalize) == ScanText(s, sep, from + |sep|, true);
    assert Capitalized(here[0], capitalize) == "";
    assert ConcatUpper(here[1..]) == UpperFirst(rest[0]) + ConcatUpper(rest[1..]);
  }

  lemma ScanKeepsCharacter(s: string, sep: string, from: nat, capitalize: bool)
    requires sep != "" && from < |s| && !OccursAt(s, sep, from)
    requires ScanJoins(s, sep, from + 1, false)
    ensures ScanJoins(s, sep, from, capitalize)
  {
    SplitTextStep(s, sep, from);
    var c := if capitalize then Upper(s[from]) else s[from];
    assert ScanText(s, sep, from, capitalize) == [c] + ScanText(s, sep, from + 1, false);
    JoinCons(s[from], capitalize, SplitTextFrom(s, sep, from), SplitTextFrom(s, sep, from + 1));
  }

  /** Putting a character in front of the first piece puts it, capitalized
      as that piece would be, in front of the join. */
  lemma JoinCons(ch: char, capitalize: bool, here: seq<string>, next: seq<string>)
    requires |here| >= 1 && |next| >= 1
    requires here[0] == [ch] + next[0] && here[1..] == next[1..]
    ensures Capitalized(here[0], capitalize) + ConcatUpper(here[1..]) ==
      [if capitalize then Upper(ch) else ch] + (Capitalized(next[0], false) + ConcatUpper(next[1..]))
  {
    assert here[0][1..] == next[0];
  }

  lemma CamelizeTextIsScan(s: string, sep: string)
    requires sep != ""
    ensures Camelize(s, Text(sep)) == LowerFirst(ScanText(s, sep, 0, false))
  {
    ScanTextIsSplitJoin(s, sep, 0, false);
    assert ScanJoins(s, sep, 0, false);
  }

  /** A string in which `sep` never occurs only has its first character
      lower-cased. */
  lemma CamelizeTextWithoutSeparator(s: string, sep: string)
    requires sep != "" && Avoids(s, sep)
    ensures Camelize(s, Text(sep)) == LowerFirst(s)
  {
    NotFoundWhenAvoided(s, sep, 0);
    assert SplitOnText(s, sep) == [s[0..]];
    assert s[0..] == s;
  }

  lemma {:induction false} NotFoundWhenAvoided(s: string, sep: string, from: nat)
    requires from <= |s| && Avoids(s, sep)
    ensures FindFrom(s, sep, from) == -1
    decreases |s| - from
  {
    if from + |sep| <= |s| {
      assert !OccursAt(s, sep, from);
      NotFoundWhenAvoided(s, sep, from + 1);
    }
  }

  /** Capitalizing and joining one-character pieces upper-cases each one. */
  lemma {:induction false} ConcatUpperChars(t: string)
    ensures var u := ConcatUpper(Characters(t));
      |u| == |t| && forall j :: 0 <= j < |t| ==> u[j] == Upper(t[j])
  {
    if t != "" {
      ConcatUpperChars(t[1..]);
      ConcatUpperCharsStep(t);
      var u := ConcatUpper(Characters(t));
      var v := ConcatUpper(Characters(t[1..]));
      assert forall j :: 1 <= j < |t| ==> u[j] == v[j - 1] && t[j] == t[1..][j - 1];
    }
  }

  /** The first one-character piece is capitalised in front of the rest. */
  lemma ConcatUpperCharsStep(t: string)
    requires t != ""
    ensures ConcatUpper(Characters(t)) == [Upper(t[0])] + ConcatUpper(Characters(t[1..]))
  {
    var pieces := Characters(t);
    assert pieces == [[t[0]]] + Characters(t[1..]);
    assert pieces[0] == [t[0]] && pieces[1..] == Characters(t[1..]);
  }

  /** An empty string separator cuts between every two characters: the first
      character is lower-cased and every other one upper-cased. */
  lemma CamelizeEmptySeparator(s: string)
    ensures var r := Camelize(s, Text(""));
      |r| == |s| &&
      (s != "" ==> r[0] == Lower(s[0])) &&
      forall j :: 1 <= j < |s| ==> r[j] == Upper(s[j])
  {
    if s != "" {
      var pieces := Characters(s);
      var t := s[1..];
      ConcatUpperChars(t);
      assert pieces[0] == [s[0]] && pieces[1..] == Characters(t);
      var joined := JoinCapitalized(pieces);
      assert joined == [s[0]] + ConcatUpper(pieces[1..]);
      assert forall j :: 1 <= j < |s| ==> s[j] == t[j - 1];
    }
  }
}
