/** The hotel memory of app21.py: an insertion-ordered dictionary from lookup keys
    to hotel records, rebuilt from the accumulated search results. */
module HotelIndex {
  import opened Wrappers
  import opened Text

  /** The value stored under every key: `{"id": ..., "full_name": ...}`. */
  datatype Record = Record(id: nat, fullName: string)

  datatype Entry = Entry(key: string, rec: Record)

  /** A Python dict as its items in iteration (insertion) order. */
  type Index = seq<Entry>

  /** One hotel of the accumulated search result, as `hotel.get('hotel_name', '')`
      and `hotel.get('id')` see it: a missing name is the empty string, a missing id `None`. */
  datatype RawHotel = RawHotel(name: string, id: Option<nat>)

  /** Python truthiness of an optional id: `None` and `0` are false. */
  predicate Truthy(id: Option<nat>) {
    id.Some? && id.value != 0
  }

  function Keys(m: Index): (ks: seq<string>)
    ensures |ks| == |m|
    ensures forall i :: 0 <= i < |m| ==> ks[i] == m[i].key
  {
    if m == [] then [] else [m[0].key] + Keys(m[1..])
  }

  predicate HasKey(m: Index, k: string) {
    k in Keys(m)
  }

  /** The dict invariant: no key occurs twice. */
  predicate DistinctKeys(m: Index) {
    forall i, j :: 0 <= i < j < |m| ==> m[i].key != m[j].key
  }

  /** `m[k]` when `k in m`, else `None`. */
  function Find(m: Index, k: string): (r: Option<Record>)
    ensures r.Some? <==> HasKey(m, k)
    ensures r.Some? ==> Entry(k, r.value) in m
  {
    if m == [] then None
    else if m[0].key == k then Some(m[0].rec)
    else Find(m[1..], k)
  }

  /** Under the dict invariant the lookup returns the one entry holding the key. */
  lemma {:induction false} FindDistinct(m: Index, k: string, i: nat)
    requires DistinctKeys(m) && i < |m| && m[i].key == k
    ensures Find(m, k) == Some(m[i].rec)
  {
    if i > 0 {
      assert m[0].key != k;
      FindDistinct(m[1..], k, i - 1);
    }
  }

  /** `m[k] = r`: an existing key keeps its position and takes the new value,
      a new key goes to the end. */
  function Put(m: Index, k: string, r: Record): (m': Index)
    ensures Find(m', k) == Some(r)
    ensures forall k' :: k' != k ==> Find(m', k') == Find(m, k')
  {
    if m == [] then [Entry(k, r)]
    else if m[0].key == k then [Entry(k, r)] + m[1..]
    else [m[0]] + Put(m[1..], k, r)
  }

  /** Reassigning a key keeps its original position; a new key is appended. */
  lemma {:induction false} PutKeys(m: Index, k: string, r: Record)
    ensures Keys(Put(m, k, r)) == if HasKey(m, k) then Keys(m) else Keys(m) + [k]
  {
    if m != [] && m[0].key != k {
      PutKeys(m[1..], k, r);
      assert Keys(m) == [m[0].key] + Keys(m[1..]);
    }
  }

  /** Assignment adds no entry other than the assigned one. */
  lemma {:induction false} PutEntries(m: Index, k: string, r: Record, e: Entry)
    requires e in Put(m, k, r)
    ensures e == Entry(k, r) || e in m
  {
    if m != [] && m[0].key != k && e != m[0] {
      PutEntries(m[1..], k, r, e);
    }
  }

  /** Assignment keeps the dict invariant. */
  lemma PutDistinct(m: Index, k: string, r: Record)
    requires DistinctKeys(m)
    ensures DistinctKeys(Put(m, k, r))
  {
    var m' := Put(m, k, r);
    PutKeys(m, k, r);
    forall i, j | 0 <= i < j < |m'| ensures m'[i].key != m'[j].key {
      assert Keys(m')[i] == m'[i].key && Keys(m')[j] == m'[j].key;
      if HasKey(m, k) {
        assert Keys(m)[i] != Keys(m)[j];
      } else {
        assert Keys(m') == Keys(m) + [k];
        if j < |m| {
          assert Keys(m)[i] != Keys(m)[j];
        } else {
          assert Keys(m)[i] != k;
        }
      }
    }
  }

  /** The record is registered only when `hotel_name.strip()` is non-empty and the id is truthy. */
  predicate Admitted(h: RawHotel) {
    Strip(h.name) != [] && Truthy(h.id)
  }

  function RecordOf(h: RawHotel): Record
    requires Admitted(h)
  {
    Record(h.id.value, Strip(h.name))
  }

  /** The four keys of the hotel at 1-based position n. */
  function FullKey(h: RawHotel): string {
    Lower(Strip(h.name))
  }

  function OptionKey(n: nat): string {
    "option " + NatToString(n)
  }

  function PositionKey(n: nat): string {
    NatToString(n)
  }

  function FirstKey(h: RawHotel): string {
    Lower(FirstWord(Strip(h.name)))
  }

  /** The assignments of one iteration for the record rec: the keys full, `"option n"`
      and `"n"` unconditionally, then first only when it is not yet present. */
  function Assign(m: Index, n: nat, full: string, first: string, rec: Record): Index {
    var m1 := Put(Put(Put(m, full, rec), OptionKey(n), rec), PositionKey(n), rec);
    if HasKey(m1, first) then m1 else Put(m1, first, rec)
  }

  /** One iteration of the rebuild loop: a skipped hotel changes nothing. */
  function Register(m: Index, n: nat, h: RawHotel): Index {
    if Admitted(h) then Assign(m, n, FullKey(h), FirstKey(h), RecordOf(h)) else m
  }

  /** The memory after `hotel_memory.clear()` and the loop over `enumerate(all_hotels, 1)`. */
  function Fill(hs: seq<RawHotel>): Index {
    if hs == [] then [] else Register(Fill(hs[..|hs| - 1]), |hs|, hs[|hs| - 1])
  }

  /** The hotel at position n writes the entry e. */
  predicate Writes(hs: seq<RawHotel>, n: nat, e: Entry) {
    && 1 <= n <= |hs|
    && Admitted(hs[n - 1])
    && e.rec == RecordOf(hs[n - 1])
    && e.key in [FullKey(hs[n - 1]), OptionKey(n), PositionKey(n), FirstKey(hs[n - 1])]
  }

  lemma AssignDistinct(m: Index, n: nat, full: string, first: string, rec: Record)
    requires DistinctKeys(m)
    ensures DistinctKeys(Assign(m, n, full, first, rec))
  {
    var m1 := Put(m, full, rec);
    PutDistinct(m, full, rec);
    var m2 := Put(m1, OptionKey(n), rec);
    PutDistinct(m1, OptionKey(n), rec);
    var m3 := Put(m2, PositionKey(n), rec);
    PutDistinct(m2, PositionKey(n), rec);
    PutDistinct(m3, first, rec);
  }

  lemma RegisterDistinct(m: Index, n: nat, h: RawHotel)
    requires DistinctKeys(m)
    ensures DistinctKeys(Register(m, n, h))
  {
    if Admitted(h) {
      AssignDistinct(m, n, FullKey(h), FirstKey(h), RecordOf(h));
    }
  }

  /** The rebuilt memory is a dict: every key occurs once. */
  lemma {:induction false} FillDistinct(hs: seq<RawHotel>)
    ensures DistinctKeys(Fill(hs))
  {
    if hs != [] {
      FillDistinct(hs[..|hs| - 1]);
      RegisterDistinct(Fill(hs[..|hs| - 1]), |hs|, hs[|hs| - 1]);
    }
  }

  lemma AssignEntries(m: Index, n: nat, full: string, first: string, rec: Record, e: Entry)
    requires e in Assign(m, n, full, first, rec)
    ensures e in m || (e.rec == rec && e.key in [full, OptionKey(n), PositionKey(n), first])
  {
    var m1 := Put(m, full, rec);
    var m2 := Put(m1, OptionKey(n), rec);
    var m3 := Put(m2, PositionKey(n), rec);
    if e !in m3 {
      PutEntries(m3, first, rec, e);
    } else if e !in m2 {
      PutEntries(m2, PositionKey(n), rec, e);
    } else if e !in m1 {
      PutEntries(m1, OptionKey(n), rec, e);
    } else if e !in m {
      PutEntries(m, full, rec, e);
    }
  }

  lemma RegisterFromHotel(m: Index, n: nat, h: RawHotel, e: Entry)
    requires e in Register(m, n, h)
    ensures e in m || (Admitted(h) && e.rec == RecordOf(h)
                       && e.key in [FullKey(h), OptionKey(n), PositionKey(n), FirstKey(h)])
  {
    if Admitted(h) {
      AssignEntries(m, n, FullKey(h), FirstKey(h), RecordOf(h), e);
    }
  }

  /** Every entry comes from this search: the memory is replaced, never merged. */
  lemma {:induction false} FillFromSearch(hs: seq<RawHotel>, e: Entry)
    requires e in Fill(hs)
    ensures exists n :: Writes(hs, n, e)
  {
    var init := hs[..|hs| - 1];
    RegisterFromHotel(Fill(init), |hs|, hs[|hs| - 1], e);
    if e in Fill(init) {
      FillFromSearch(init, e);
      var n :| Writes(init, n, e);
      assert init[n - 1] == hs[n - 1];
      assert Writes(hs, n, e);
    } else {
      assert Writes(hs, |hs|, e);
    }
  }

  /** A key already present survives a later registration unless that
      registration assigns it unconditionally. */
  lemma AssignKeeps(m: Index, n: nat, full: string, first: string, rec: Record, k: string)
    requires HasKey(m, k) && k != full && k != OptionKey(n) && k != PositionKey(n)
    ensures Find(Assign(m, n, full, first, rec), k) == Find(m, k)
  {
    var m1 := Put(m, full, rec);
    var m2 := Put(m1, OptionKey(n), rec);
    var m3 := Put(m2, PositionKey(n), rec);
    assert Find(m1, k) == Find(m, k);
    assert Find(m2, k) == Find(m, k);
    assert Find(m3, k) == Find(m, k);
  }

  lemma RegisterKeeps(m: Index, n: nat, h: RawHotel, k: string)
    requires HasKey(m, k)
    requires Admitted(h) ==> k != FullKey(h) && k != OptionKey(n) && k != PositionKey(n)
    ensures Find(Register(m, n, h), k) == Find(m, k)
  {
    if Admitted(h) {
      AssignKeeps(m, n, FullKey(h), FirstKey(h), RecordOf(h), k);
    }
  }

  lemma OptionKeyIsNotPosition(a: nat, b: nat)
    ensures OptionKey(a) != PositionKey(b)
  {
    assert OptionKey(a)[0] == 'o';
    assert IsDigit(PositionKey(b)[0]);
  }

  /** Distinct positions get four distinct position keys. */
  lemma DistinctPositionKeys(a: nat, b: nat)
    requires a != b
    ensures OptionKey(a) != OptionKey(b) && PositionKey(a) != PositionKey(b)
    ensures OptionKey(a) != PositionKey(b) && PositionKey(a) != OptionKey(b)
  {
    OptionKeyIsNotPosition(a, b);
    OptionKeyIsNotPosition(b, a);
    assert OptionKey(a)[7..] == NatToString(a);
    assert OptionKey(b)[7..] == NatToString(b);
  }

  lemma AssignPositions(m: Index, n: nat, full: string, first: string, rec: Record)
    ensures Find(Assign(m, n, full, first, rec), OptionKey(n)) == Some(rec)
    ensures Find(Assign(m, n, full, first, rec), PositionKey(n)) == Some(rec)
  {
    var m2 := Put(Put(m, full, rec), OptionKey(n), rec);
    var m3 := Put(m2, PositionKey(n), rec);
    OptionKeyIsNotPosition(n, n);
    assert Find(m3, OptionKey(n)) == Some(rec);
    assert Find(m3, PositionKey(n)) == Some(rec);
  }

  lemma RegisterPositionKeys(m: Index, n: nat, h: RawHotel)
    requires Admitted(h)
    ensures Find(Register(m, n, h), OptionKey(n)) == Some(RecordOf(h))
    ensures Find(Register(m, n, h), PositionKey(n)) == Some(RecordOf(h))
  {
    AssignPositions(m, n, FullKey(h), FirstKey(h), RecordOf(h));
  }

  /** One iteration never moves or removes a key: the old keys stay a prefix. */
  lemma AssignKeysPrefix(m: Index, n: nat, full: string, first: string, rec: Record)
    ensures Keys(m) <= Keys(Assign(m, n, full, first, rec))
  {
    var m1 := Put(m, full, rec);
    var m2 := Put(m1, OptionKey(n), rec);
    var m3 := Put(m2, PositionKey(n), rec);
    PutKeysPrefix(m, full, rec);
    PutKeysPrefix(m1, OptionKey(n), rec);
    PutKeysPrefix(m2, PositionKey(n), rec);
    PutKeysPrefix(m3, first, rec);
    PrefixTrans(Keys(m), Keys(m1), Keys(m2));
    PrefixTrans(Keys(m), Keys(m2), Keys(m3));
    PrefixTrans(Keys(m), Keys(m3), Keys(Put(m3, first, rec)));
  }

  lemma PutKeysPrefix(m: Index, k: string, r: Record)
    ensures Keys(m) <= Keys(Put(m, k, r))
  {
    PutKeys(m, k, r);
  }

  lemma PrefixTrans(a: seq<string>, b: seq<string>, c: seq<string>)
    requires a <= b && b <= c
    ensures a <= c
  {
    assert c[..|a|] == b[..|a|];
  }

  lemma RegisterKeysPrefix(m: Index, n: nat, h: RawHotel)
    ensures Keys(m) <= Keys(Register(m, n, h))
  {
    if Admitted(h) {
      AssignKeysPrefix(m, n, FullKey(h), FirstKey(h), RecordOf(h));
    }
  }

  /** Over the whole rebuild, keys written by earlier hotels keep their order and
      positions ahead of those written later. */
  lemma {:induction false} FillKeysPrefix(hs: seq<RawHotel>, k: nat)
    requires k <= |hs|
    ensures Keys(Fill(hs[..k])) <= Keys(Fill(hs))
  {
    if k == |hs| {
      assert hs[..k] == hs;
    } else {
      var init := hs[..|hs| - 1];
      assert init[..k] == hs[..k];
      FillKeysPrefix(init, k);
      RegisterKeysPrefix(Fill(init), |hs|, hs[|hs| - 1]);
    }
  }

  /** The full-name assignment is unconditional: it takes over a key that an earlier
      hotel wrote (its first word or the same name); by RegisterKeysPrefix the key
      stays where it was first inserted. */
  lemma RegisterFullName(m: Index, n: nat, h: RawHotel)
    requires Admitted(h)
    ensures Find(Register(m, n, h), FullKey(h)) == Some(RecordOf(h))
  {
    AssignFull(m, n, FullKey(h), FirstKey(h), RecordOf(h));
  }

  /** Every write of one iteration stores the same record, so the full-name key holds it
      afterwards even when the name coincides with the position keys. */
  lemma AssignFull(m: Index, n: nat, full: string, first: string, rec: Record)
    ensures Find(Assign(m, n, full, first, rec), full) == Some(rec)
  {
    var m1 := Put(m, full, rec);
    var m2 := Put(m1, OptionKey(n), rec);
    var m3 := Put(m2, PositionKey(n), rec);
    assert Find(m1, full) == Some(rec);
    assert Find(m2, full) == Some(rec);
    assert Find(m3, full) == Some(rec);
    if !HasKey(m3, first) {
      assert Find(Put(m3, first, rec), full) == Some(rec);
    }
  }

  /** For the hotel at 1-based position n of the full list, `"option n"` and `"n"`
      map to its record, unless a later hotel's full lowercase name reassigns them.
      Skipped records before it do not shift n. */
  lemma {:induction false} PositionKeys(hs: seq<RawHotel>, n: nat)
    requires 1 <= n <= |hs| && Admitted(hs[n - 1])
    requires forall j :: n <= j < |hs| && Admitted(hs[j]) ==>
               FullKey(hs[j]) != OptionKey(n) && FullKey(hs[j]) != PositionKey(n)
    ensures Find(Fill(hs), OptionKey(n)) == Some(RecordOf(hs[n - 1]))
    ensures Find(Fill(hs), PositionKey(n)) == Some(RecordOf(hs[n - 1]))
  {
    var init := hs[..|hs| - 1];
    var h := hs[|hs| - 1];
    if |hs| == n {
      RegisterPositionKeys(Fill(init), n, h);
    } else {
      forall j | n <= j < |init| && Admitted(init[j])
        ensures FullKey(init[j]) != OptionKey(n) && FullKey(init[j]) != PositionKey(n)
      {
        assert init[j] == hs[j];
      }
      assert init[n - 1] == hs[n - 1];
      PositionKeys(init, n);
      if Admitted(h) {
        DistinctPositionKeys(n, |hs|);
        assert FullKey(hs[|hs| - 1]) != OptionKey(n);
      }
      RegisterKeeps(Fill(init), |hs|, h, OptionKey(n));
      RegisterKeeps(Fill(init), |hs|, h, PositionKey(n));
    }
  }

  /** A record that is skipped (empty name or falsy id) registers nothing, yet its
      position number is used up: `"n"` and `"option n"` stay absent unless some
      other hotel's name is exactly that text. */
  lemma SkippedPositionUnused(hs: seq<RawHotel>, n: nat)
    requires 1 <= n <= |hs| && !Admitted(hs[n - 1])
    requires forall j :: 0 <= j < |hs| && Admitted(hs[j]) ==>
               && FullKey(hs[j]) != OptionKey(n) && FullKey(hs[j]) != PositionKey(n)
               && FirstKey(hs[j]) != PositionKey(n)
    ensures !HasKey(Fill(hs), OptionKey(n)) && !HasKey(Fill(hs), PositionKey(n))
  {
    SkippedOptionAbsent(hs, n);
    SkippedNumberAbsent(hs, n);
  }

  lemma SkippedOptionAbsent(hs: seq<RawHotel>, n: nat)
    requires 1 <= n <= |hs| && !Admitted(hs[n - 1])
    requires forall j :: 0 <= j < |hs| && Admitted(hs[j]) ==> FullKey(hs[j]) != OptionKey(n)
    ensures !HasKey(Fill(hs), OptionKey(n))
  {
    forall j | 0 <= j < |hs|
      ensures Spares(hs[j], j + 1, OptionKey(n)) && (Admitted(hs[j]) ==> FirstKey(hs[j]) != OptionKey(n))
    {
      SparesOption(hs[j], j + 1, n);
    }
    FillAbsent(hs, OptionKey(n));
  }

  lemma SkippedNumberAbsent(hs: seq<RawHotel>, n: nat)
    requires 1 <= n <= |hs| && !Admitted(hs[n - 1])
    requires forall j :: 0 <= j < |hs| && Admitted(hs[j]) ==>
               FullKey(hs[j]) != PositionKey(n) && FirstKey(hs[j]) != PositionKey(n)
    ensures !HasKey(Fill(hs), PositionKey(n))
  {
    forall j | 0 <= j < |hs|
      ensures Spares(hs[j], j + 1, PositionKey(n)) && (Admitted(hs[j]) ==> FirstKey(hs[j]) != PositionKey(n))
    {
      SparesNumber(hs[j], j + 1, n);
    }
    FillAbsent(hs, PositionKey(n));
  }

  /** A first word has no blank, while `"option n"` has one: the two never coincide. */
  lemma FirstKeyIsNotOption(h: RawHotel, n: nat)
    ensures FirstKey(h) != OptionKey(n)
  {
    var w := FirstWord(Strip(h.name));
    LowerNoSpace(w);
    NoSpaceIsNotOption(Lower(w), n);
  }

  lemma LowerNoSpace(w: string)
    requires forall i :: 0 <= i < |w| ==> !IsSpace(w[i])
    ensures forall i :: 0 <= i < |w| ==> !IsSpace(Lower(w)[i])
  {
  }

  lemma NoSpaceIsNotOption(w: string, n: nat)
    requires forall i :: 0 <= i < |w| ==> !IsSpace(w[i])
    ensures w != OptionKey(n)
  {
    var o := OptionKey(n);
    assert o[6] == ' ';
    if |w| > 6 {
      assert !IsSpace(w[6]);
    }
  }

  /** The hotel at another position p writes `"option n"` only as its full name. */
  lemma SparesOption(h: RawHotel, p: nat, n: nat)
    requires p == n ==> !Admitted(h)
    requires Admitted(h) ==> FullKey(h) != OptionKey(n)
    ensures Spares(h, p, OptionKey(n)) && (Admitted(h) ==> FirstKey(h) != OptionKey(n))
  {
    if Admitted(h) {
      DistinctPositionKeys(n, p);
      FirstKeyIsNotOption(h, n);
    }
  }

  /** The hotel at another position p writes `"n"` only as its full name or first word. */
  lemma SparesNumber(h: RawHotel, p: nat, n: nat)
    requires p == n ==> !Admitted(h)
    requires Admitted(h) ==> FullKey(h) != PositionKey(n) && FirstKey(h) != PositionKey(n)
    ensures Spares(h, p, PositionKey(n)) && (Admitted(h) ==> FirstKey(h) != PositionKey(n))
  {
    if Admitted(h) {
      DistinctPositionKeys(n, p);
    }
  }

  /** The key written when absent, with every assignment before it carrying the same record. */
  lemma RegisterAddsFirstWord(m: Index, n: nat, h: RawHotel)
    requires Admitted(h) && !HasKey(m, FirstKey(h))
    ensures Find(Register(m, n, h), FirstKey(h)) == Some(RecordOf(h))
  {
    AssignFirst(m, n, FullKey(h), FirstKey(h), RecordOf(h));
  }

  lemma AssignFirst(m: Index, n: nat, full: string, first: string, rec: Record)
    requires !HasKey(m, first)
    ensures Find(Assign(m, n, full, first, rec), first) == Some(rec)
  {
    var m1 := Put(m, full, rec);
    var m2 := Put(m1, OptionKey(n), rec);
    var m3 := Put(m2, PositionKey(n), rec);
    assert Find(m1, first) == None || Find(m1, first) == Some(rec);
    assert Find(m2, first) == None || Find(m2, first) == Some(rec);
    assert Find(m3, first) == None || Find(m3, first) == Some(rec);
  }

  /** Hotel h at position n writes no unconditional key equal to k. */
  predicate Spares(h: RawHotel, n: nat, k: string) {
    Admitted(h) ==> FullKey(h) != k && OptionKey(n) != k && PositionKey(n) != k
  }

  /** A key none of whose hotels writes it stays absent through one iteration. */
  lemma RegisterAbsent(m: Index, n: nat, h: RawHotel, k: string)
    requires !HasKey(m, k) && Spares(h, n, k) && (Admitted(h) ==> FirstKey(h) != k)
    ensures !HasKey(Register(m, n, h), k)
  {
    if Admitted(h) {
      AssignAbsent(m, n, FullKey(h), FirstKey(h), RecordOf(h), k);
    }
  }

  lemma AssignAbsent(m: Index, n: nat, full: string, first: string, rec: Record, k: string)
    requires !HasKey(m, k) && k != full && k != OptionKey(n) && k != PositionKey(n) && k != first
    ensures !HasKey(Assign(m, n, full, first, rec), k)
  {
    var m3 := Put(Put(Put(m, full, rec), OptionKey(n), rec), PositionKey(n), rec);
    assert Find(m3, k) == None;
    assert Find(Put(m3, first, rec), k) == None;
  }

  /** ... and through the whole rebuild. */
  lemma {:induction false} FillAbsent(hs: seq<RawHotel>, k: string)
    requires forall j :: 0 <= j < |hs| ==> Spares(hs[j], j + 1, k)
    requires forall j :: 0 <= j < |hs| && Admitted(hs[j]) ==> FirstKey(hs[j]) != k
    ensures !HasKey(Fill(hs), k)
  {
    if hs != [] {
      var init := hs[..|hs| - 1];
      forall j | 0 <= j < |init|
        ensures Spares(init[j], j + 1, k) && (Admitted(init[j]) ==> FirstKey(init[j]) != k)
      {
        assert init[j] == hs[j];
      }
      FillAbsent(init, k);
      RegisterAbsent(Fill(init), |hs|, hs[|hs| - 1], k);
    }
  }

  /** The first word is registered only if absent, so among hotels sharing a first
      word the earliest one wins, provided no other hotel's unconditional keys reassign it. */
  lemma {:induction false} FirstWordWins(hs: seq<RawHotel>, i: nat)
    requires 1 <= i <= |hs| && Admitted(hs[i - 1])
    requires forall j :: 0 <= j < i - 1 && Admitted(hs[j]) ==> FirstKey(hs[j]) != FirstKey(hs[i - 1])
    requires forall j :: 0 <= j < |hs| && j != i - 1 ==> Spares(hs[j], j + 1, FirstKey(hs[i - 1]))
    ensures Find(Fill(hs), FirstKey(hs[i - 1])) == Some(RecordOf(hs[i - 1]))
  {
    var init := hs[..|hs| - 1];
    var h := hs[|hs| - 1];
    var fw := FirstKey(hs[i - 1]);
    forall j | 0 <= j < |init|
      ensures j < i - 1 && Admitted(init[j]) ==> FirstKey(init[j]) != fw
      ensures j != i - 1 ==> Spares(init[j], j + 1, fw)
    {
      assert init[j] == hs[j];
    }
    if |hs| == i {
      FillAbsent(init, fw);
      RegisterAddsFirstWord(Fill(init), |hs|, h);
    } else {
      assert init[i - 1] == hs[i - 1];
      FirstWordWins(init, i);
      assert Spares(h, |hs|, fw);
      RegisterKeeps(Fill(init), |hs|, h, fw);
    }
  }
}
