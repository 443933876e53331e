/** `resolve_hotel_reference` of app21.py: four lookup strategies tried in strict
    priority against the hotel memory and the focus id. It only reads them. */
module Resolver {
  import opened Wrappers
  import opened Text
  import opened HotelIndex
  import opened Patterns

  /** Demonstrative and anaphoric phrases (Hindi, Hinglish and English). */
  const ReferencePhrases: seq<string> := [
    "iski", "iska", "iske", "uski", "uska", "uske",
    "yeh wala", "ye wala", "yahan", "yaha",
    "this hotel", "this one", "is hotel", "same hotel",
    "above", "mentioned", "previous"
  ]

  /** Keys the free-text scan never reports. */
  const GuardKeys: seq<string> := ["option", "1", "2", "3", "4", "5"]

  /** Spoken ordinals and the position key each one names, in the dict's listed order. */
  const SpokenOrdinals: seq<(string, string)> := [
    ("pehla", "1"), ("pehle", "1"), ("first", "1"),
    ("dusra", "2"), ("dusre", "2"), ("second", "2"),
    ("teesra", "3"), ("teesre", "3"), ("third", "3"),
    ("chautha", "4"), ("chauthe", "4"), ("fourth", "4"),
    ("panchwa", "5"), ("panchwe", "5"), ("fifth", "5")
  ]

  predicate MentionsFocus(lower: string) {
    exists i :: 0 <= i < |ReferencePhrases| && Contains(lower, ReferencePhrases[i])
  }

  /** The entry qualifies for the free-text scan. */
  predicate KeyMentioned(lower: string, e: Entry) {
    Contains(lower, e.key) && e.key !in GuardKeys
  }

  /** Strategy 2: the id of the first entry, in insertion order, whose key occurs in the text. */
  function ScanKeys(lower: string, m: Index): (r: Option<nat>)
    ensures r.None? <==> forall i :: 0 <= i < |m| ==> !KeyMentioned(lower, m[i])
    ensures r.Some? ==> exists i :: 0 <= i < |m| && KeyMentioned(lower, m[i]) && r.value == m[i].rec.id
                                   && forall j :: 0 <= j < i ==> !KeyMentioned(lower, m[j])
  {
    if m == [] then None
    else if KeyMentioned(lower, m[0]) then Some(m[0].rec.id)
    else
      var r := ScanKeys(lower, m[1..]);
      assert forall i :: 1 <= i < |m| ==> m[1..][i - 1] == m[i];
      r
  }

  /** A numeral captured by a pattern counts only when it is a key of the memory. */
  function NumeralHit(m: Index, cap: Option<string>): Option<nat> {
    if cap.Some? && HasKey(m, cap.value) then Some(Find(m, cap.value).value.id) else None
  }

  /** Strategy 3: the patterns in order; a capture that is not a key moves on to the next pattern. */
  function ByNumberPatterns(lower: string, m: Index, pats: seq<Pattern>): (r: Option<nat>)
    ensures r.None? <==> forall i :: 0 <= i < |pats| ==> NumeralHit(m, Search(pats[i], lower)).None?
    ensures r.Some? ==> exists i :: 0 <= i < |pats| && r == NumeralHit(m, Search(pats[i], lower))
                                   && forall j :: 0 <= j < i ==> NumeralHit(m, Search(pats[j], lower)).None?
  {
    if pats == [] then None
    else
      var hit := NumeralHit(m, Search(pats[0], lower));
      if hit.Some? then hit
      else
        var r := ByNumberPatterns(lower, m, pats[1..]);
        assert forall i :: 1 <= i < |pats| ==> pats[1..][i - 1] == pats[i];
        r
  }

  predicate OrdinalNamed(lower: string, m: Index, w: (string, string)) {
    Contains(lower, w.0) && HasKey(m, w.1)
  }

  /** Strategy 4: the first table word in the text whose digit key is present. */
  function BySpokenOrdinal(lower: string, m: Index, table: seq<(string, string)>): (r: Option<nat>)
    ensures r.None? <==> forall i :: 0 <= i < |table| ==> !OrdinalNamed(lower, m, table[i])
    ensures r.Some? ==> exists i :: 0 <= i < |table| && OrdinalNamed(lower, m, table[i])
                                   && r == Some(Find(m, table[i].1).value.id)
                                   && forall j :: 0 <= j < i ==> !OrdinalNamed(lower, m, table[j])
  {
    if table == [] then None
    else if OrdinalNamed(lower, m, table[0]) then Some(Find(m, table[0].1).value.id)
    else
      var r := BySpokenOrdinal(lower, m, table[1..]);
      assert forall i :: 1 <= i < |table| ==> table[1..][i - 1] == table[i];
      r
  }

  /** Strategies 2 to 4 on the lowercased text. */
  function FromIndex(lower: string, m: Index): Option<nat> {
    var byKey := ScanKeys(lower, m);
    if byKey.Some? then byKey
    else
      var byPattern := ByNumberPatterns(lower, m, NumberPatterns);
      if byPattern.Some? then byPattern
      else BySpokenOrdinal(lower, m, SpokenOrdinals)
  }

  /** `resolve_hotel_reference(user_text)` against the memory m and the focus. */
  function Resolve(text: string, m: Index, focus: Option<nat>): Option<nat> {
    var lower := Lower(text);
    if MentionsFocus(lower) && Truthy(focus) then focus else FromIndex(lower, m)
  }

  /** Every id the resolver returns is the truthy focus or the id of a memory entry. */
  lemma ResolveSources(text: string, m: Index, focus: Option<nat>)
    ensures var r := Resolve(text, m, focus);
      r.Some? ==> (r == focus && Truthy(focus)) || exists e :: e in m && e.rec.id == r.value
  {
    var lower := Lower(text);
    var r := Resolve(text, m, focus);
    if !(MentionsFocus(lower) && Truthy(focus)) && r.Some? {
      if ScanKeys(lower, m).Some? {
        var i :| 0 <= i < |m| && KeyMentioned(lower, m[i]) && r.value == m[i].rec.id;
        assert m[i] in m;
      } else {
        var k: string, rec: Record;
        if ByNumberPatterns(lower, m, NumberPatterns).Some? {
          var i :| 0 <= i < |NumberPatterns| && r == NumeralHit(m, Search(NumberPatterns[i], lower));
          k := Search(NumberPatterns[i], lower).value;
        } else {
          var i :| 0 <= i < |SpokenOrdinals| && OrdinalNamed(lower, m, SpokenOrdinals[i])
                   && r == Some(Find(m, SpokenOrdinals[i].1).value.id);
          k := SpokenOrdinals[i].1;
        }
        rec := Find(m, k).value;
        assert Entry(k, rec) in m;
      }
    }
  }

  /** A reference phrase with a truthy focus returns the focus before any other strategy. */
  lemma ResolveToFocus(text: string, m: Index, focus: Option<nat>)
    requires MentionsFocus(Lower(text)) && Truthy(focus)
    ensures Resolve(text, m, focus) == focus
  {
  }

  /** An unset or zero focus never short-circuits: the phrase test falls through and
      the result is that of the memory strategies alone. */
  lemma ResolveFallsThrough(text: string, m: Index, focus: Option<nat>)
    requires !Truthy(focus)
    ensures Resolve(text, m, focus) == Resolve(text, m, None) == FromIndex(Lower(text), m)
  {
  }

  /** With an empty memory only the focus can be returned. */
  lemma ResolveEmptyMemory(text: string, focus: Option<nat>)
    ensures Resolve(text, [], focus) == if MentionsFocus(Lower(text)) && Truthy(focus) then focus else None
  {
    var lower := Lower(text);
    assert ByNumberPatterns(lower, [], NumberPatterns).None?;
    assert BySpokenOrdinal(lower, [], SpokenOrdinals).None?;
  }

  /** The free-text scan outranks the numeral patterns and the spoken ordinals. */
  lemma KeyScanFirst(text: string, m: Index, focus: Option<nat>, i: nat)
    requires !(MentionsFocus(Lower(text)) && Truthy(focus))
    requires i < |m| && KeyMentioned(Lower(text), m[i])
    requires forall j :: 0 <= j < i ==> !KeyMentioned(Lower(text), m[j])
    ensures Resolve(text, m, focus) == Some(m[i].rec.id)
  {
    var lower := Lower(text);
    var r := ScanKeys(lower, m);
    var k :| 0 <= k < |m| && KeyMentioned(lower, m[k]) && r.value == m[k].rec.id
             && forall j :: 0 <= j < k ==> !KeyMentioned(lower, m[j]);
    assert k == i;
  }

  /** Before any search, "same hotel" resolves to nothing. */
  lemma SameHotelWithoutFocus()
    ensures Resolve("same hotel", [], None) == None
  {
    ResolveEmptyMemory("same hotel", None);
  }
}
