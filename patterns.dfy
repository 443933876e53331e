/** The regular expressions of app21.py as explicit scanners over ASCII text:
    the three numeral patterns of the resolver and the hidden id marker
    `\[hotel_id:\s*\d+\]` that the answer is cleaned of. */
module Patterns {
  import opened Wrappers
  import opened Text

  /** Index just past the run of digits starting at i (what a greedy `\d+` or `\d*` consumes). */
  function DigitRunEnd(s: string, i: nat): (e: nat)
    requires i <= |s|
    ensures i <= e <= |s|
    ensures forall k :: i <= k < e ==> IsDigit(s[k])
    ensures e == |s| || !IsDigit(s[e])
    decreases |s| - i
  {
    if i < |s| && IsDigit(s[i]) then DigitRunEnd(s, i + 1) else i
  }

  /** Index just past the run of whitespace starting at i (a greedy `\s*`). */
  function SpaceRunEnd(s: string, i: nat): (e: nat)
    requires i <= |s|
    ensures i <= e <= |s|
    ensures forall k :: i <= k < e ==> IsSpace(s[k])
    ensures e == |s| || !IsSpace(s[e])
    decreases |s| - i
  {
    if i < |s| && IsSpace(s[i]) then SpaceRunEnd(s, i + 1) else i
  }

  /** The literal w occurs in s at offset i. */
  predicate LiteralAt(s: string, i: nat, w: string) {
    i <= |s| && w <= s[i..]
  }

  // ---------------------------------------------------------------------------
  // Pattern 1: (\d+)(?:st|nd|rd|th)?\s*(?:option|number|hotel|wala)

  predicate OrdinalKeywordAt(s: string, i: nat) {
    LiteralAt(s, i, "option") || LiteralAt(s, i, "number") || LiteralAt(s, i, "hotel") || LiteralAt(s, i, "wala")
  }

  predicate OrdinalSuffixAt(s: string, i: nat) {
    LiteralAt(s, i, "st") || LiteralAt(s, i, "nd") || LiteralAt(s, i, "rd") || LiteralAt(s, i, "th")
  }

  /** What follows the digits, matched from q: the optional suffix is tried present
      first, then absent. `\s*` is taken greedily: a shorter run would leave a
      whitespace character where the keyword's first letter is needed. */
  predicate TailMatch(s: string, q: nat)
    requires q <= |s|
  {
    || (OrdinalSuffixAt(s, q) && OrdinalKeywordAt(s, SpaceRunEnd(s, q + 2)))
    || OrdinalKeywordAt(s, SpaceRunEnd(s, q))
  }

  /** The tail as the backtracking tests it: every alternative starts with a letter or a
      space, so a digit at q fails at once (TailStartsAfterDigits shows nothing is lost). */
  predicate OrdinalTail(s: string, q: nat)
    requires q <= |s|
  {
    q < |s| && !IsDigit(s[q]) && TailMatch(s, q)
  }

  lemma TailStartsAfterDigits(s: string, q: nat)
    requires q <= |s|
    ensures OrdinalTail(s, q) <==> TailMatch(s, q)
  {
    if q < |s| && IsDigit(s[q]) {
      assert SpaceRunEnd(s, q) == q;
    }
  }

  /** `(\d+)` with backtracking: the run p..q is tried longest first. */
  function OrdinalBacktrack(s: string, p: nat, q: nat): Option<string>
    requires p < q <= |s|
    decreases q
  {
    if OrdinalTail(s, q) then Some(s[p..q])
    else if q - 1 > p then OrdinalBacktrack(s, p, q - 1)
    else None
  }

  function OrdinalAt(s: string, p: nat): Option<string>
    requires p <= |s|
  {
    if p < |s| && IsDigit(s[p]) then OrdinalBacktrack(s, p, DigitRunEnd(s, p)) else None
  }

  /** Backtracking into the digits never helps: a captured numeral is always the
      whole run of digits starting where the match starts. */
  lemma OrdinalCapturesWholeRun(s: string, p: nat)
    requires p <= |s| && OrdinalAt(s, p).Some?
    ensures OrdinalAt(s, p) == Some(s[p..DigitRunEnd(s, p)])
    ensures OrdinalTail(s, DigitRunEnd(s, p))
  {
    BacktrackResult(s, p, DigitRunEnd(s, p));
  }

  /** Below a run of digits no tail can start, so backtracking succeeds only where
      it starts, at the end of the run. */
  lemma {:induction false} BacktrackResult(s: string, p: nat, q: nat)
    requires p < q <= |s| && forall k :: p < k < q ==> IsDigit(s[k])
    ensures !OrdinalTail(s, q) ==> OrdinalBacktrack(s, p, q).None?
    decreases q
  {
    if !OrdinalTail(s, q) && q - 1 > p {
      BacktrackResult(s, p, q - 1);
    }
  }

  // ---------------------------------------------------------------------------
  // Patterns 2 and 3: option\s*(\d+) and number\s*(\d+)

  /** `kw\s*(\d+)` at p. Both runs are greedy; backtracking cannot change the capture,
      since nothing follows the digits in the pattern. */
  function KeywordNumberAt(s: string, p: nat, kw: string): (r: Option<string>)
    requires p <= |s|
    ensures r.Some? ==> IsDigitString(r.value) && LiteralAt(s, p, kw)
  {
    if LiteralAt(s, p, kw) then
      var j := SpaceRunEnd(s, p + |kw|);
      if j < |s| && IsDigit(s[j]) then Some(s[j..DigitRunEnd(s, j)]) else None
    else None
  }

  /** What `kw\s*(\d+)` captures: the keyword, a run of whitespace, then the whole
      digit run that follows it. */
  lemma KeywordNumberCapture(s: string, p: nat, kw: string)
    requires p <= |s|
    ensures KeywordNumberAt(s, p, kw).Some? ==>
      exists j :: && p + |kw| <= j < |s| && IsDigit(s[j])
                  && (forall k :: p + |kw| <= k < j ==> IsSpace(s[k]))
                  && KeywordNumberAt(s, p, kw).value == s[j..DigitRunEnd(s, j)]
  {
    if KeywordNumberAt(s, p, kw).Some? {
      var j := SpaceRunEnd(s, p + |kw|);
      assert IsDigit(s[j]);
    }
  }

  /** Conversely, the keyword followed by whitespace and a digit always matches, and
      the capture is the digit run starting at that digit. */
  lemma KeywordNumberFrom(s: string, p: nat, kw: string, j: nat)
    requires LiteralAt(s, p, kw) && p + |kw| <= j < |s| && IsDigit(s[j])
    requires forall k :: p + |kw| <= k < j ==> IsSpace(s[k])
    ensures KeywordNumberAt(s, p, kw) == Some(s[j..DigitRunEnd(s, j)])
  {
    SpaceRunOver(s, p + |kw|, j - (p + |kw|));
  }

  lemma {:induction false} SpaceRunOver(s: string, i: nat, n: nat)
    requires i + n <= |s|
    requires forall k :: i <= k < i + n ==> IsSpace(s[k])
    requires i + n == |s| || !IsSpace(s[i + n])
    ensures SpaceRunEnd(s, i) == i + n
    decreases n
  {
    if n > 0 { SpaceRunOver(s, i + 1, n - 1); }
  }

  /** The three numeral patterns, in the order they are tried. */
  datatype Pattern = OrdinalWord | AfterKeyword(kw: string)

  const NumberPatterns: seq<Pattern> := [OrdinalWord, AfterKeyword("option"), AfterKeyword("number")]

  function MatchAt(pat: Pattern, s: string, p: nat): (r: Option<string>)
    requires p <= |s|
    ensures r.Some? ==> IsDigitString(r.value)
  {
    match pat
    case OrdinalWord =>
      var r := OrdinalAt(s, p);
      if r.Some? then OrdinalCapturesWholeRun(s, p); r else r
    case AfterKeyword(kw) => KeywordNumberAt(s, p, kw)
  }

  /** `re.search(pattern, s).group(1)`: the capture of the leftmost starting position that matches. */
  function SearchFrom(pat: Pattern, s: string, p: nat): Option<string>
    requires p <= |s|
    decreases |s| - p
  {
    var r := MatchAt(pat, s, p);
    if r.Some? then r else if p == |s| then None else SearchFrom(pat, s, p + 1)
  }

  function Search(pat: Pattern, s: string): Option<string> {
    SearchFrom(pat, s, 0)
  }

  /** The search reports the leftmost match, and reports one whenever any position matches. */
  lemma {:induction false} SearchFromLeftmost(pat: Pattern, s: string, p: nat)
    requires p <= |s|
    ensures SearchFrom(pat, s, p).Some? ==>
      exists i :: p <= i <= |s| && MatchAt(pat, s, i) == SearchFrom(pat, s, p)
                && forall k :: p <= k < i ==> MatchAt(pat, s, k).None?
    ensures SearchFrom(pat, s, p).None? ==> forall k :: p <= k <= |s| ==> MatchAt(pat, s, k).None?
    decreases |s| - p
  {
    var r := MatchAt(pat, s, p);
    if r.Some? {
      assert SearchFrom(pat, s, p) == r;
      assert p <= p <= |s| && MatchAt(pat, s, p) == SearchFrom(pat, s, p);
    } else if p < |s| {
      assert SearchFrom(pat, s, p) == SearchFrom(pat, s, p + 1);
      SearchFromLeftmost(pat, s, p + 1);
      if SearchFrom(pat, s, p).Some? {
        var i :| p + 1 <= i <= |s| && MatchAt(pat, s, i) == SearchFrom(pat, s, p + 1)
                 && forall k :: p + 1 <= k < i ==> MatchAt(pat, s, k).None?;
        assert p <= i <= |s| && MatchAt(pat, s, i) == SearchFrom(pat, s, p);
      }
    } else {
      assert SearchFrom(pat, s, p).None?;
    }
  }

  lemma SearchLeftmost(pat: Pattern, s: string)
    ensures Search(pat, s).Some? ==>
      exists i :: 0 <= i <= |s| && MatchAt(pat, s, i) == Search(pat, s)
                && forall k :: 0 <= k < i ==> MatchAt(pat, s, k).None?
    ensures Search(pat, s).None? <==> forall k :: 0 <= k <= |s| ==> MatchAt(pat, s, k).None?
  {
    SearchFromLeftmost(pat, s, 0);
  }

  // ---------------------------------------------------------------------------
  // The hidden marker \[hotel_id:\s*\d+\]

  const MarkerOpen: string := "[hotel_id:"

  /** The marker the conversation glue appends for a resolved id. */
  function Annotation(id: nat): string {
    " " + MarkerOpen + NatToString(id) + "]"
  }

  /** Length of a marker match at the start of s, if there is one. */
  function MarkerLen(s: string): (r: Option<nat>)
    ensures r.Some? ==> |MarkerOpen| + 2 <= r.value <= |s|
  {
    if MarkerOpen <= s then
      var j := SpaceRunEnd(s, |MarkerOpen|);
      if j < |s| && IsDigit(s[j]) then
        var e := DigitRunEnd(s, j);
        if e < |s| && s[e] == ']' then Some(e + 1) else None
      else None
    else None
  }

  /** `re.sub(r"\[hotel_id:\s*\d+\]", "", s)`: one left-to-right pass that deletes
      every non-overlapping match and resumes after it. */
  function RemoveMarkers(s: string): (r: string)
    ensures |r| <= |s|
    decreases |s|
  {
    if s == [] then []
    else
      match MarkerLen(s)
      case Some(n) => RemoveMarkers(s[n..])
      case None => [s[0]] + RemoveMarkers(s[1..])
  }

  /** The cleaned answer: markers removed, then `.strip()`. */
  function CleanAnswer(s: string): string {
    Strip(RemoveMarkers(s))
  }

  /** Text in which no marker starts is returned unchanged. */
  lemma {:induction false} RemoveMarkersNoMarker(s: string)
    requires forall i :: 0 <= i < |s| ==> MarkerLen(s[i..]).None?
    ensures RemoveMarkers(s) == s
    decreases |s|
  {
    if s != [] {
      assert s[0..] == s;
      forall i | 0 <= i < |s| - 1 ensures MarkerLen(s[1..][i..]).None? {
        assert s[1..][i..] == s[i + 1..];
      }
      RemoveMarkersNoMarker(s[1..]);
    }
  }

  /** Appending text that starts with a space and a bracket cannot complete or extend a
      marker that starts in s. */
  lemma MarkerLenAppend(s: string, t: string)
    requires |t| >= 2 && t[0] == ' ' && t[1] == '['
    ensures MarkerLen(s + t) == MarkerLen(s)
  {
    var u := s + t;
    if |s| < |MarkerOpen| {
      assert u[|s|] == ' ';
    } else {
      assert u[..|MarkerOpen|] == s[..|MarkerOpen|];
      if MarkerOpen <= s {
        assert MarkerOpen <= u;
        var j := SpaceRunEnd(s, |MarkerOpen|);
        var ju := SpaceRunEnd(u, |MarkerOpen|);
        SpaceRunAppend(s, t, |MarkerOpen|);
        if j < |s| && IsDigit(s[j]) {
          DigitRunAppend(s, t, j);
        }
      }
    }
  }

  lemma {:induction false} SpaceRunAppend(s: string, t: string, i: nat)
    requires i <= |s| && |t| >= 2 && t[0] == ' ' && t[1] == '['
    ensures SpaceRunEnd(s, i) < |s| ==> SpaceRunEnd(s + t, i) == SpaceRunEnd(s, i)
    ensures SpaceRunEnd(s, i) == |s| ==> SpaceRunEnd(s + t, i) == |s| + 1
    decreases |s| - i
  {
    var u := s + t;
    if i < |s| {
      assert u[i] == s[i];
      if IsSpace(s[i]) { SpaceRunAppend(s, t, i + 1); }
    } else {
      assert u[i] == ' ' && u[i + 1] == '[';
      assert SpaceRunEnd(u, i + 1) == i + 1;
    }
  }

  lemma {:induction false} DigitRunAppend(s: string, t: string, i: nat)
    requires i <= |s| && |t| >= 1 && t[0] == ' '
    ensures DigitRunEnd(s + t, i) == DigitRunEnd(s, i)
    decreases |s| - i
  {
    var u := s + t;
    if i < |s| {
      assert u[i] == s[i];
      if IsDigit(s[i]) { DigitRunAppend(s, t, i + 1); }
    } else {
      assert u[i] == ' ';
    }
  }

  /** Removing markers distributes over s + t when t starts with " [". */
  lemma {:induction false} RemoveMarkersAppend(s: string, t: string)
    requires |t| >= 2 && t[0] == ' ' && t[1] == '['
    ensures RemoveMarkers(s + t) == RemoveMarkers(s) + RemoveMarkers(t)
    decreases |s|
  {
    if s == [] {
      assert s + t == t;
    } else {
      MarkerLenAppend(s, t);
      match MarkerLen(s)
      case Some(n) =>
        assert (s + t)[n..] == s[n..] + t;
        assert RemoveMarkers(s + t) == RemoveMarkers(s[n..] + t);
        assert RemoveMarkers(s) == RemoveMarkers(s[n..]);
        RemoveMarkersAppend(s[n..], t);
      case None =>
        assert (s + t)[1..] == s[1..] + t && (s + t)[0] == s[0];
        assert RemoveMarkers(s + t) == [s[0]] + RemoveMarkers(s[1..] + t);
        assert RemoveMarkers(s) == [s[0]] + RemoveMarkers(s[1..]);
        RemoveMarkersAppend(s[1..], t);
    }
  }

  /** The annotation alone reduces to the single space in front of it. */
  lemma RemoveAnnotation(id: nat)
    ensures RemoveMarkers(Annotation(id)) == " "
  {
    RemoveAnnotationThen(id, []);
    assert Annotation(id) + [] == Annotation(id);
  }

  /** Whatever follows the annotation is cleaned on its own. */
  lemma RemoveAnnotationThen(id: nat, b: string)
    ensures RemoveMarkers(Annotation(id) + b) == " " + RemoveMarkers(b)
  {
    var d := NatToString(id);
    var m := MarkerOpen + d + "]";
    var t := Annotation(id) + b;
    assert t == " " + (m + b);
    assert MarkerLen(t) == None;
    assert t[1..] == m + b;
    WholeMarker(d, b);
    assert m + b == MarkerOpen + d + "]" + b;
    assert (m + b)[|m|..] == b;
  }

  /** The marker leaves a single space wherever it occurs in the text. */
  lemma AnnotationAnywhere(a: string, id: nat, b: string)
    ensures RemoveMarkers(a + Annotation(id) + b) == RemoveMarkers(a) + " " + RemoveMarkers(b)
  {
    var t := Annotation(id) + b;
    assert a + Annotation(id) + b == a + t;
    assert t[0] == ' ' && t[1] == '[';
    RemoveMarkersAppend(a, t);
    RemoveAnnotationThen(id, b);
  }

  /** Text in which no marker starts before t passes through unchanged. */
  lemma {:induction false} RemoveMarkersPlainPrefix(a: string, t: string)
    requires forall i :: 0 <= i < |a| ==> MarkerLen((a + t)[i..]).None?
    ensures RemoveMarkers(a + t) == a + RemoveMarkers(t)
    decreases |a|
  {
    if a == [] {
      assert a + t == t;
    } else {
      var u := a + t;
      assert u[0..] == u;
      assert u[1..] == a[1..] + t;
      forall i | 0 <= i < |a| - 1 ensures MarkerLen((a[1..] + t)[i..]).None? {
        assert (a[1..] + t)[i..] == u[i + 1..];
      }
      RemoveMarkersPlainPrefix(a[1..], t);
    }
  }

  /** The removal is a single pass: a marker nested inside an unfinished one is
      deleted, and the text around it closes up into a new marker that stays. */
  lemma OnePassResidue()
    ensures RemoveMarkers("[hotel_id:[hotel_id:7]7]") == "[hotel_id:7]"
  {
    var t := MarkerOpen + "7" + "]" + "7]";
    assert MarkerOpen + t == "[hotel_id:[hotel_id:7]7]";
    UnfinishedOpenStays(t);
    ResidueTail();
    assert MarkerOpen + "7]" == "[hotel_id:7]";
  }

  /** An opening `[hotel_id:` directly followed by `[` is kept as it is. */
  lemma UnfinishedOpenStays(t: string)
    requires t != [] && t[0] == '['
    ensures RemoveMarkers(MarkerOpen + t) == MarkerOpen + RemoveMarkers(t)
  {
    OpenThenBracket(t);
    RemoveMarkersPlainPrefix(MarkerOpen, t);
  }

  /** The inner marker goes, and the digits and bracket after it stay. */
  lemma ResidueTail()
    ensures RemoveMarkers(MarkerOpen + "7" + "]" + "7]") == "7]"
  {
    var t := MarkerOpen + "7" + "]" + "7]";
    assert IsDigitString("7");
    WholeMarker("7", "7]");
    assert t[12..] == "7]";
    assert RemoveMarkers(t) == RemoveMarkers("7]");
    assert MarkerLen("7]") == None && "7]"[1..] == "]";
    assert MarkerLen("]") == None && "]"[1..] == [];
  }

  /** No marker starts inside an opening `[hotel_id:` that another `[` follows. */
  lemma OpenThenBracket(t: string)
    requires t != [] && t[0] == '['
    ensures forall i :: 0 <= i < |MarkerOpen| ==> MarkerLen((MarkerOpen + t)[i..]).None?
  {
    var u := MarkerOpen + t;
    forall i | 0 <= i < |MarkerOpen| ensures MarkerLen(u[i..]).None? {
      if i == 0 {
        assert u[0..] == u && u[|MarkerOpen|] == '[';
        assert SpaceRunEnd(u, |MarkerOpen|) == |MarkerOpen|;
      } else {
        assert u[i..][0] == MarkerOpen[i] != '[';
      }
    }
  }

  /** `[hotel_id:` , digits and `]` form one marker match at the start of the text. */
  lemma WholeMarker(d: string, b: string)
    requires IsDigitString(d)
    ensures MarkerLen(MarkerOpen + d + "]" + b) == Some(|MarkerOpen| + |d| + 1)
  {
    var m := MarkerOpen + d + "]" + b;
    assert MarkerOpen <= m;
    assert SpaceRunEnd(m, |MarkerOpen|) == |MarkerOpen| by {
      assert m[|MarkerOpen|] == d[0];
    }
    assert m[|MarkerOpen|..|MarkerOpen| + |d|] == d;
    DigitRunOver(m, |MarkerOpen|, |d|);
    assert m[|MarkerOpen| + |d|] == ']';
  }

  lemma {:induction false} DigitRunOver(s: string, i: nat, n: nat)
    requires i + n <= |s|
    requires forall k :: i <= k < i + n ==> IsDigit(s[k])
    requires i + n == |s| || !IsDigit(s[i + n])
    ensures DigitRunEnd(s, i) == i + n
    decreases n
  {
    if n > 0 { DigitRunOver(s, i + 1, n - 1); }
  }

  /** Annotation round trip: cleaning a question annotated with any id gives the same
      text as cleaning the bare question, so the marker leaves no trace. */
  lemma AnnotationRoundTrip(q: string, id: nat)
    ensures CleanAnswer(q + Annotation(id)) == CleanAnswer(q)
  {
    var t := Annotation(id);
    assert t[0] == ' ' && t[1] == '[';
    RemoveMarkersAppend(q, t);
    RemoveAnnotation(id);
    StripTrailingSpace(RemoveMarkers(q), ' ');
  }
}
