/**
 * Scenario extraction from feature-file text (src/extension.ts, extractScenariosFromFeature).
 *
 * The source runs the global regular expression `/Scenario: (.+)/g` over the text with
 * `exec` until it fails and collects capture group 1 of each match. Here `Exec` states what one
 * `exec` call returns for that pattern, the method is the source's loop, and `ScenarioNames`
 * is an independent, line-by-line description of the result that the loop is proved to compute.
 */
module Extractor {
  import opened Wrappers
  import Seqs

  /** ECMAScript line terminators: the characters `.` does not match without the `s` flag. */
  predicate IsLineTerminator(c: char)
  {
    c == '\n' || c == '\r' || c == '\U{2028}' || c == '\U{2029}'
  }

  predicate NoLineTerminator(s: string)
  {
    forall k :: 0 <= k < |s| ==> !IsLineTerminator(s[k])
  }

  /** The literal part of the pattern. */
  function Marker(): string
  {
    "Scenario: "
  }

  /** The literal `Scenario: ` occurs in s starting at position p. */
  predicate MarkerAt(s: string, p: nat)
  {
    p + |Marker()| <= |s| && s[p..p + |Marker()|] == Marker()
  }

  /** The end of the line that contains position j: the first line terminator at or after j, or |text|. */
  function LineEnd(text: string, j: nat): (e: nat)
    requires j <= |text|
    ensures j <= e <= |text|
    ensures e == |text| || IsLineTerminator(text[e])
    decreases |text| - j
  {
    if j == |text| || IsLineTerminator(text[j]) then j else LineEnd(text, j + 1)
  }

  // ---------------------------------------------------------------------------------------
  // What the result is, line by line

  /** The first position p at or after `from` where a whole marker fits before e, if any. */
  function FirstMarkerIn(text: string, from: nat, e: nat): (r: Option<nat>)
    requires from <= e <= |text|
    ensures r.Some? ==> from <= r.value && r.value + |Marker()| <= e && MarkerAt(text, r.value)
    decreases e - from
  {
    if from + |Marker()| > e then None
    else if MarkerAt(text, from) then Some(from)
    else FirstMarkerIn(text, from + 1, e)
  }

  /**
   * What the line text[j..e] contributes: the rest of the line after its first marker, untrimmed,
   * when that rest is not empty; nothing otherwise.
   */
  function LineName(text: string, j: nat, e: nat): seq<string>
    requires j <= e <= |text|
  {
    match FirstMarkerIn(text, j, e)
    case None => []
    case Some(p) => if p + |Marker()| < e then [text[p + |Marker()|..e]] else []
  }

  /** The names of the lines of text from position j on, taking j as the start of a line. */
  function NamesFrom(text: string, j: nat): seq<string>
    requires j <= |text|
    decreases |text| - j
  {
    var e := LineEnd(text, j);
    LineName(text, j, e) + if e < |text| then NamesFrom(text, e + 1) else []
  }

  /** The scenario names of a feature file: the name of each of its lines, in text order. */
  function ScenarioNames(text: string): seq<string>
  {
    NamesFrom(text, 0)
  }

  // ---------------------------------------------------------------------------------------
  // The regular expression /Scenario: (.+)/g, one `exec` call at a time

  /** One successful `exec`: match[0] is text[index..end], capture group 1 is text[index + |Marker()|..end]. */
  datatype Match = Match(index: nat, end: nat)

  /** The pattern matches at p: the literal, then at least one character that is not a line terminator. */
  predicate MatchesAt(text: string, p: nat)
  {
    MarkerAt(text, p) && p + |Marker()| < |text| && !IsLineTerminator(text[p + |Marker()|])
  }

  /**
   * `exec` with the given `lastIndex`: the leftmost match at or after lastIndex, its `(.+)` taken
   * greedily up to the end of the line; None when there is none (the regular expression then
   * resets lastIndex, which the loop never reads again).
   */
  function Exec(text: string, lastIndex: nat): (m: Option<Match>)
    ensures m.Some? ==> lastIndex <= m.value.index && m.value.index + |Marker()| < m.value.end <= |text|
    decreases |text| - lastIndex
  {
    if lastIndex >= |text| then None
    else if MatchesAt(text, lastIndex) then Some(Match(lastIndex, LineEnd(text, lastIndex + |Marker()|)))
    else Exec(text, lastIndex + 1)
  }

  /**
   * `exec` finds the leftmost match at or after lastIndex and none exactly when there is none;
   * the capture group runs to the end of the line and holds no line terminator.
   */
  lemma {:induction false} ExecIsLeftmostGreedyMatch(text: string, lastIndex: nat)
    ensures var m := Exec(text, lastIndex);
      m.Some? ==> (
        && MatchesAt(text, m.value.index)
        && (forall q :: lastIndex <= q < m.value.index ==> !MatchesAt(text, q))
        && (forall k :: m.value.index + |Marker()| <= k < m.value.end ==> !IsLineTerminator(text[k]))
        && (m.value.end == |text| || IsLineTerminator(text[m.value.end])))
    ensures Exec(text, lastIndex).None? <==> forall q :: lastIndex <= q ==> !MatchesAt(text, q)
    decreases |text| - lastIndex
  {
    if lastIndex < |text| && !MatchesAt(text, lastIndex) {
      ExecIsLeftmostGreedyMatch(text, lastIndex + 1);
    } else if lastIndex < |text| {
      InsideLine(text, lastIndex + |Marker()|);
    } else {
      assert forall q :: lastIndex <= q ==> !MatchesAt(text, q);
    }
  }

  /** The source's loop: call `exec` until it fails, collecting capture group 1. */
  method ExtractScenariosFromFeature(featureText: string) returns (scenarios: seq<string>)
    ensures scenarios == ScenarioNames(featureText)
  {
    scenarios := [];
    var lastIndex: nat := 0;
    var found := Exec(featureText, lastIndex);
    while found.Some?
      invariant lastIndex <= |featureText|
      invariant found == Exec(featureText, lastIndex)
      invariant scenarios + NamesFrom(featureText, lastIndex) == ScenarioNames(featureText)
      decreases |featureText| - lastIndex
    {
      ExecFindsNextName(featureText, lastIndex);
      scenarios := scenarios + [featureText[found.value.index + |Marker()|..found.value.end]];
      lastIndex := found.value.end;
      found := Exec(featureText, lastIndex);
    }
    ExecFindsNextName(featureText, lastIndex);
  }

  // ---------------------------------------------------------------------------------------
  // Connecting the regular expression to the lines

  /** Every position of a line up to its end lies on the same line. */
  lemma {:induction false} InsideLine(text: string, j: nat)
    requires j <= |text|
    ensures forall k :: j <= k < LineEnd(text, j) ==> !IsLineTerminator(text[k]) && LineEnd(text, k) == LineEnd(text, j)
    decreases |text| - j
  {
    if j < |text| && !IsLineTerminator(text[j]) {
      InsideLine(text, j + 1);
    }
  }

  /** No marker character is a line terminator, so no marker spans a line end. */
  lemma {:induction false} NoMarkerAcrossLineEnd(text: string, q: nat, e: nat)
    requires q < e <= |text| && e < q + |Marker()|
    requires e == |text| || IsLineTerminator(text[e])
    ensures !MarkerAt(text, q)
  {
    if q + |Marker()| <= |text| {
      assert text[e] == text[q..q + |Marker()|][e - q];
    }
  }

  lemma {:induction false} NoMarkerAtTerminator(text: string, q: nat)
    requires q < |text| && IsLineTerminator(text[q])
    ensures !MarkerAt(text, q)
  {
    if q + |Marker()| <= |text| {
      assert text[q..q + |Marker()|][0] == text[q];
    }
  }

  /** `exec` passes over positions where the pattern cannot match. */
  lemma {:induction false} ExecSkips(text: string, a: nat, b: nat)
    requires a <= b <= |text|
    requires forall q :: a <= q < b ==> !MatchesAt(text, q)
    ensures Exec(text, a) == Exec(text, b)
    decreases b - a
  {
    if a < b {
      ExecSkips(text, a + 1, b);
    }
  }

  /** Near the end of a line no marker fits, so `exec` moves on to the line end. */
  lemma {:induction false} ExecSkipsLineTail(text: string, a: nat, e: nat)
    requires a <= e <= |text| && e < a + |Marker()|
    requires e == |text| || IsLineTerminator(text[e])
    ensures Exec(text, a) == Exec(text, e)
  {
    forall q | a <= q < e ensures !MatchesAt(text, q) {
      NoMarkerAcrossLineEnd(text, q, e);
    }
    ExecSkips(text, a, e);
  }

  /** What searching the line from i up to its end e says about `exec` from i. */
  predicate SearchAgrees(text: string, i: nat, e: nat)
    requires i <= e <= |text|
  {
    match FirstMarkerIn(text, i, e)
    case None => Exec(text, i) == Exec(text, e)
    case Some(p) => Exec(text, i) == if p + |Marker()| < e then Some(Match(p, e)) else Exec(text, e)
  }

  /** Searching a line for its first marker agrees with `exec` started inside that line. */
  lemma {:induction false} LineSearch(text: string, i: nat, e: nat)
    requires i <= |text| && LineEnd(text, i) == e
    ensures SearchAgrees(text, i, e)
    decreases e - i
  {
    if i + |Marker()| > e {
      ExecSkipsLineTail(text, i, e);
    } else if !MarkerAt(text, i) {
      LineSearch(text, i + 1, e);
    } else if i + |Marker()| < e {
      InsideLine(text, i);
    } else {
      ExecSkipsLineTail(text, i + 1, e);
    }
  }

  /** At a line end, both `exec` and the names skip the terminator. */
  lemma {:induction false} AtLineEnd(text: string, e: nat)
    requires e <= |text| && (e == |text| || IsLineTerminator(text[e]))
    ensures e == |text| ==> Exec(text, e) == None && NamesFrom(text, e) == []
    ensures e < |text| ==> Exec(text, e) == Exec(text, e + 1) && NamesFrom(text, e) == NamesFrom(text, e + 1)
  {
    NamesAtLineEnd(text, e);
    if e < |text| {
      NoMarkerAtTerminator(text, e);
    }
  }

  lemma {:induction false} NamesAtLineEnd(text: string, e: nat)
    requires e <= |text| && (e == |text| || IsLineTerminator(text[e]))
    ensures NamesFrom(text, e) == if e < |text| then NamesFrom(text, e + 1) else []
  {
    assert LineEnd(text, e) == e;
    assert LineName(text, e, e) == [];
    if e < |text| {
      NamesUnfoldInner(text, e, e);
      assert [] + NamesFrom(text, e + 1) == NamesFrom(text, e + 1);
    } else {
      NamesUnfoldLast(text, e);
    }
  }

  /** One `exec` result and the names from the same position agree. */
  predicate NextNameIs(text: string, found: Option<Match>, names: seq<string>)
  {
    match found
    case None => names == []
    case Some(m) =>
      m.index + |Marker()| <= m.end <= |text| &&
      names == [text[m.index + |Marker()|..m.end]] + NamesFrom(text, m.end)
  }

  /**
   * One `exec` from j finds exactly the next name of the text from j: none when there is none,
   * and otherwise the first one, the remaining names following from the end of the match.
   */
  lemma {:induction false} ExecFindsNextName(text: string, j: nat)
    requires j <= |text|
    ensures NextNameIs(text, Exec(text, j), NamesFrom(text, j))
    decreases |text| - j
  {
    var e := LineEnd(text, j);
    LineSearch(text, j, e);
    AtLineEnd(text, e);
    if LineName(text, j, e) != [] {
      NameOnLine(text, j, e);
    } else if e < |text| {
      ExecFindsNextName(text, e + 1);
      NoNameOnLine(text, j, e);
    } else {
      NoNameOnLastLine(text, j, e);
    }
  }

  /** A line with a name: `exec` matches from its first marker to the end of the line. */
  lemma {:induction false} NameOnLine(text: string, j: nat, e: nat)
    requires j <= |text| && LineEnd(text, j) == e && SearchAgrees(text, j, e) && LineName(text, j, e) != []
    requires e < |text| ==> NamesFrom(text, e) == NamesFrom(text, e + 1)
    requires e == |text| ==> NamesFrom(text, e) == []
    ensures NextNameIs(text, Exec(text, j), NamesFrom(text, j))
  {
    var p := ExecMatchesNamedLine(text, j, e);
    NamesOfLine(text, j, e);
  }

  lemma {:induction false} ExecMatchesNamedLine(text: string, j: nat, e: nat) returns (p: nat)
    requires j <= e <= |text| && SearchAgrees(text, j, e) && LineName(text, j, e) != []
    ensures p + |Marker()| < e && Exec(text, j) == Some(Match(p, e))
    ensures LineName(text, j, e) == [text[p + |Marker()|..e]]
  {
    p := FirstMarkerIn(text, j, e).value;
  }

  /** The names from the start of a line: the line's own, then those from its end. */
  lemma {:induction false} NamesOfLine(text: string, j: nat, e: nat)
    requires j <= |text| && LineEnd(text, j) == e
    requires e < |text| ==> NamesFrom(text, e) == NamesFrom(text, e + 1)
    requires e == |text| ==> NamesFrom(text, e) == []
    ensures NamesFrom(text, j) == LineName(text, j, e) + NamesFrom(text, e)
  {
    if e < |text| {
      NamesUnfoldInner(text, j, e);
    } else {
      NamesUnfoldLast(text, j);
      assert LineName(text, j, e) + [] == LineName(text, j, e);
    }
  }

  /** A line without a name: `exec` and the names both continue on the next line. */
  lemma {:induction false} NoNameOnLine(text: string, j: nat, e: nat)
    requires j <= |text| && LineEnd(text, j) == e && e < |text|
    requires SearchAgrees(text, j, e) && LineName(text, j, e) == []
    requires Exec(text, e) == Exec(text, e + 1)
    requires NextNameIs(text, Exec(text, e + 1), NamesFrom(text, e + 1))
    ensures NextNameIs(text, Exec(text, j), NamesFrom(text, j))
  {
    ExecSkipsNamelessLine(text, j, e);
    NamesSkipNamelessLine(text, j, e);
  }

  lemma {:induction false} ExecSkipsNamelessLine(text: string, j: nat, e: nat)
    requires j <= |text| && LineEnd(text, j) == e && e < |text|
    requires SearchAgrees(text, j, e) && LineName(text, j, e) == []
    requires Exec(text, e) == Exec(text, e + 1)
    ensures Exec(text, j) == Exec(text, e + 1)
  {
  }

  lemma {:induction false} NamesSkipNamelessLine(text: string, j: nat, e: nat)
    requires j <= |text| && LineEnd(text, j) == e && e < |text|
    requires LineName(text, j, e) == []
    ensures NamesFrom(text, j) == NamesFrom(text, e + 1)
  {
  }

  /** The last line without a name: nothing is left for `exec` to find. */
  lemma {:induction false} NoNameOnLastLine(text: string, j: nat, e: nat)
    requires j <= |text| && LineEnd(text, j) == e && e == |text|
    requires SearchAgrees(text, j, e) && LineName(text, j, e) == [] && Exec(text, e) == None
    ensures NextNameIs(text, Exec(text, j), NamesFrom(text, j))
  {
    assert Exec(text, j) == None;
    assert NamesFrom(text, j) == [];
  }

  // ---------------------------------------------------------------------------------------
  // What the source promises about the result

  /** FirstMarkerIn finds the first marker that fits, and None when none fits. */
  lemma {:induction false} FirstMarkerInIsFirst(text: string, from: nat, e: nat)
    requires from <= e <= |text|
    ensures FirstMarkerIn(text, from, e).Some? ==>
      forall q :: from <= q < FirstMarkerIn(text, from, e).value ==> !MarkerAt(text, q)
    ensures FirstMarkerIn(text, from, e).None? ==> forall q :: from <= q && q + |Marker()| <= e ==> !MarkerAt(text, q)
    decreases e - from
  {
    if from + |Marker()| <= e && !MarkerAt(text, from) {
      FirstMarkerInIsFirst(text, from + 1, e);
    }
  }

  /**
   * A line yields a name exactly when some marker on it is followed by at least one more
   * character of the line; the name is then the whole rest of the line after the first marker,
   * later markers included: non-empty and free of line terminators.
   */
  lemma {:induction false} LineNameShape(text: string, j: nat)
    requires j <= |text|
    ensures var e := LineEnd(text, j);
      LineName(text, j, e) != [] <==> exists p: nat :: j <= p && p + |Marker()| < e && MarkerAt(text, p)
    ensures var e := LineEnd(text, j);
      LineName(text, j, e) != [] ==>
        exists p: nat :: j <= p && p + |Marker()| < e && MarkerAt(text, p) && (forall q :: j <= q < p ==> !MarkerAt(text, q)) &&
          LineName(text, j, e) == [text[p + |Marker()|..e]]
    ensures |LineName(text, j, LineEnd(text, j))| <= 1
    ensures forall name <- LineName(text, j, LineEnd(text, j)) :: |name| > 0 && NoLineTerminator(name)
  {
    var e := LineEnd(text, j);
    FirstMarkerInIsFirst(text, j, e);
    InsideLine(text, j);
    var f := FirstMarkerIn(text, j, e);
    if f.Some? && f.value + |Marker()| < e {
      var name := text[f.value + |Marker()|..e];
      assert forall k :: 0 <= k < |name| ==> name[k] == text[f.value + |Marker()| + k];
    }
  }

  /** Every extracted name is non-empty and lies within a single line. */
  lemma {:induction false} NamesAreNonEmptyLines(text: string, j: nat)
    requires j <= |text|
    ensures forall name <- NamesFrom(text, j) :: |name| > 0 && NoLineTerminator(name)
    decreases |text| - j
  {
    var e := LineEnd(text, j);
    LineNameShape(text, j);
    var rest := if e < |text| then NamesFrom(text, e + 1) else [];
    assert NamesFrom(text, j) == LineName(text, j, e) + rest;
    if e < |text| {
      NamesAreNonEmptyLines(text, e + 1);
    }
  }

  /** The number of line terminators in text from position j on. */
  function LineBreaks(text: string, j: nat): nat
    requires j <= |text|
    decreases |text| - j
  {
    if j == |text| then 0 else (if IsLineTerminator(text[j]) then 1 else 0) + LineBreaks(text, j + 1)
  }

  lemma {:induction false} NoBreaksInsideLine(text: string, j: nat)
    requires j <= |text|
    ensures LineBreaks(text, j) == LineBreaks(text, LineEnd(text, j))
    decreases |text| - j
  {
    if j < |text| && !IsLineTerminator(text[j]) {
      NoBreaksInsideLine(text, j + 1);
    }
  }

  /** At most one name per line: no more names than line terminators plus one. */
  lemma {:induction false} NamesPerLine(text: string, j: nat)
    requires j <= |text|
    ensures |NamesFrom(text, j)| <= LineBreaks(text, j) + 1
    decreases |text| - j
  {
    var e := LineEnd(text, j);
    assert |LineName(text, j, e)| <= 1;
    NoBreaksInsideLine(text, j);
    if e < |text| {
      NamesPerLine(text, e + 1);
      assert LineBreaks(text, e) == 1 + LineBreaks(text, e + 1);
      NamesUnfoldInner(text, j, e);
    } else {
      NamesUnfoldLast(text, j);
    }
  }


  /** The names from the start of a line that ends before the end of the text. */
  lemma NamesUnfoldInner(text: string, j: nat, e: nat)
    requires j <= |text| && LineEnd(text, j) == e < |text|
    ensures NamesFrom(text, j) == LineName(text, j, e) + NamesFrom(text, e + 1)
  {
  }

  /** The names from the start of the last line: that line's own. */
  lemma NamesUnfoldLast(text: string, j: nat)
    requires j <= |text| && LineEnd(text, j) == |text|
    ensures NamesFrom(text, j) == LineName(text, j, |text|)
  {
    assert LineName(text, j, |text|) + [] == LineName(text, j, |text|);
  }

  /** A text yields no names exactly when the pattern matches nowhere in it. */
  lemma {:induction false} NoNamesIffNoMatch(text: string)
    ensures ScenarioNames(text) == [] <==> forall q :: !MatchesAt(text, q)
  {
    ExecFindsNextName(text, 0);
    ExecIsLeftmostGreedyMatch(text, 0);
  }

  /**
   * A line of a text that starts with the marker and has more after it is named by the whole
   * rest of the line, spaces and later markers included; the names of the later lines follow.
   */
  lemma {:induction false} MarkerLedLine(text: string, j: nat)
    requires j <= |text| && MarkerAt(text, j) && j + |Marker()| < LineEnd(text, j)
    ensures var e := LineEnd(text, j);
      && LineName(text, j, e) == [text[j + |Marker()|..e]]
      && NamesFrom(text, j) == [text[j + |Marker()|..e]] + NamesFrom(text, e)
  {
    var e := LineEnd(text, j);
    assert FirstMarkerIn(text, j, e) == Some(j);
    NamesAtLineEnd(text, e);
    NamesOfLine(text, j, e);
  }

  /** A one-line text that starts with the marker is named by everything after it. */
  lemma {:induction false} NameAfterMarker(rest: string)
    requires rest != [] && NoLineTerminator(rest)
    ensures ScenarioNames(Marker() + rest) == [rest]
  {
    var s := Marker() + rest;
    assert forall k :: |Marker()| <= k < |s| ==> s[k] == rest[k - |Marker()|];
    assert forall k :: 0 <= k < |Marker()| ==> s[k] == Marker()[k];
    LineEndAt(s, 0, |s|);
    assert s[0..|Marker()|] == Marker();
    assert FirstMarkerIn(s, 0, |s|) == Some(0);
    assert s[|Marker()|..|s|] == rest;
    assert LineName(s, 0, |s|) == [rest];
    NamesUnfoldLast(s, 0);
    assert [rest] + [] == [rest];
  }

  /** A line that runs from j with no line terminator before e, where one is or the text ends, ends at e. */
  lemma {:induction false} LineEndAt(s: string, j: nat, e: nat)
    requires j <= e <= |s| && (e == |s| || IsLineTerminator(s[e]))
    requires forall k :: j <= k < e ==> !IsLineTerminator(s[k])
    ensures LineEnd(s, j) == e
    decreases e - j
  {
    if j < e {
      LineEndAt(s, j + 1, e);
    }
  }

  /**
   * A marker at the very end of a line names nothing: the text that is only the marker has no
   * names, and a text whose first line is only the marker has the names of its later lines.
   */
  lemma {:induction false} BareMarkerNamesNothing(c: char, b: string)
    requires IsLineTerminator(c)
    ensures ScenarioNames(Marker()) == []
    ensures var s := Marker() + [c] + b; ScenarioNames(s) == NamesFrom(s, |Marker()| + 1)
  {
    var m := Marker();
    var s := m + [c] + b;
    assert forall k :: 0 <= k < |m| ==> !IsLineTerminator(m[k]) && s[k] == m[k];
    LineEndAt(m, 0, |m|);
    LineEndAt(s, 0, |m|);
    assert m[0..|m|] == m && s[0..|m|] == m;
    assert FirstMarkerIn(m, 0, |m|) == Some(0) && FirstMarkerIn(s, 0, |m|) == Some(0);
    NamesUnfoldLast(m, 0);
    NamesUnfoldInner(s, 0, |m|);
  }
}
