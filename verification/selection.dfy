/**
  The shared selection state of the dashboard: four comparison slots (the
  last one doubling as the "my country" slot), the "my country" choice, the
  two mutators that change them, the colour palette tied to the slots, and
  the highlight precedence every view uses to decide how to draw a country.
 */
module Selection {
  import opened Dataset

  /** A slot of `selectedCountries`: the number 0 (empty) or a country code.
      A code is a string, so it never equals the number 0. */
  datatype Slot = Empty | Holds(id: CountryId)

  /** `selectedCountries` always has four slots. */
  type Slots = s: seq<Slot> | |s| == 4 witness [Empty, Empty, Empty, Empty]

  /** The index of the slot `selectMyCountry` writes. */
  const MyCountrySlot: nat := 3

  datatype SelState = SelState(slots: Slots, myCountry: Option<CountryId>)

  /** The state before any interaction: four empty slots, no country. */
  const Initial: SelState := SelState([Empty, Empty, Empty, Empty], None)

  /** `Array.prototype.indexOf`: the first index holding `x`, or -1. */
  function IndexOf(s: seq<Slot>, x: Slot): (i: int)
    ensures x in s ==> 0 <= i < |s| && s[i] == x && x !in s[..i]
    ensures x !in s ==> i == -1
  {
    if s == [] then -1
    else if s[0] == x then 0
    else
      var j := IndexOf(s[1..], x);
      if j == -1 then -1
      else
        assert s[..j + 1] == [s[0]] + s[1..][..j];
        j + 1
  }

  function Occurrences(s: seq<Slot>, x: Slot): nat {
    multiset(s)[x]
  }

  // ---------------------------------------------------------------------
  // Mutators
  // ---------------------------------------------------------------------

  /** `updateSelection(d)`: a country already selected leaves its first
      slot; otherwise it takes the first empty slot, if there is one;
      otherwise nothing changes. The "my country" choice is untouched. */
  function UpdateSelection(s: SelState, d: CountryId): (r: SelState)
    ensures r.myCountry == s.myCountry
    ensures Holds(d) in s.slots ==>
      var i := IndexOf(s.slots, Holds(d));
      && r.slots[i] == Empty
      && (forall j :: 0 <= j < 4 && j != i ==> r.slots[j] == s.slots[j])
      && Occurrences(r.slots, Holds(d)) == Occurrences(s.slots, Holds(d)) - 1
    ensures Holds(d) !in s.slots && Empty in s.slots ==>
      var i := IndexOf(s.slots, Empty);
      && r.slots[i] == Holds(d)
      && (forall j :: 0 <= j < 4 && j != i ==> r.slots[j] == s.slots[j])
      && Holds(d) in r.slots
      && Occurrences(r.slots, Empty) == Occurrences(s.slots, Empty) - 1
    ensures Holds(d) !in s.slots && Empty !in s.slots ==> r == s
    ensures forall c :: c != d ==> (Holds(c) in r.slots <==> Holds(c) in s.slots)
  {
    if Holds(d) in s.slots then
      var i := IndexOf(s.slots, Holds(d));
      OverwriteFirst(s.slots, Holds(d), Empty);
      SelState(s.slots[i := Empty], s.myCountry)
    else if Empty in s.slots then
      var i := IndexOf(s.slots, Empty);
      OverwriteFirst(s.slots, Empty, Holds(d));
      SelState(s.slots[i := Holds(d)], s.myCountry)
    else
      s
  }

  /** Overwriting one slot trades one occurrence of its old content for one
      of the new, and no other content appears or disappears. */
  lemma ReplaceSlot(s: seq<Slot>, i: nat, b: Slot)
    requires i < |s|
    ensures multiset(s[i := b]) == multiset(s) - multiset{s[i]} + multiset{b}
    ensures forall x :: x != s[i] && x != b ==> (x in s[i := b] <==> x in s)
  {
    assert s == s[..i] + [s[i]] + s[i + 1..];
    assert s[i := b] == s[..i] + [b] + s[i + 1..];
    forall x | x != s[i] && x != b
      ensures x in s[i := b] <==> x in s
    {
      assert x in multiset(s[i := b]) <==> x in multiset(s);
    }
  }

  /** Overwriting the first slot holding `x` with a different `b`: that
      slot now holds `b`, the others are unchanged, `x` occurs once less, and
      every other content is present exactly when it was before. */
  lemma OverwriteFirst(s: Slots, x: Slot, b: Slot)
    requires x in s && b != x
    ensures var i := IndexOf(s, x);
      && s[i := b][i] == b
      && (forall j :: 0 <= j < 4 && j != i ==> s[i := b][j] == s[j])
      && Occurrences(s[i := b], x) == Occurrences(s, x) - 1
      && (forall y :: y != x && y != b ==> (y in s[i := b] <==> y in s))
  {
    ReplaceSlot(s, IndexOf(s, x), b);
  }

  /** `selectMyCountry(d)`: choosing the current country again clears it and
      its slot; choosing any other country makes it the country and writes
      it into slot 3. Slots 0-2 never change. */
  function SelectMyCountry(s: SelState, d: CountryId): (r: SelState)
    ensures r.slots[..MyCountrySlot] == s.slots[..MyCountrySlot]
    ensures s.myCountry == Some(d) ==> r.myCountry == None && r.slots[MyCountrySlot] == Empty
    ensures s.myCountry != Some(d) ==> r.myCountry == Some(d) && r.slots[MyCountrySlot] == Holds(d)
  {
    if s.myCountry == Some(d) then SelState(s.slots[MyCountrySlot := Empty], None)
    else SelState(s.slots[MyCountrySlot := Holds(d)], Some(d))
  }

  /** Toggling a country that is not selected into a state with a free slot,
      and toggling it again, restores the slots. */
  lemma ToggleTwiceRestores(s: SelState, d: CountryId)
    requires Holds(d) !in s.slots && Empty in s.slots
    ensures UpdateSelection(UpdateSelection(s, d), d) == s
  {
    var i := IndexOf(s.slots, Empty);
    var t := UpdateSelection(s, d);
    assert t.slots[i] == Holds(d);
    assert forall j :: 0 <= j < i ==> t.slots[j] == s.slots[j] && s.slots[j] != Empty;
    assert forall j :: 0 <= j < i ==> t.slots[j] != Holds(d);
    assert Holds(d) !in t.slots[..i];
    var k := IndexOf(t.slots, Holds(d));
    assert Holds(d) in t.slots[..i + 1];
    assert k == i;
    var u := UpdateSelection(t, d);
    assert u.slots == s.slots;
  }

  /** Choosing a country and then choosing it again, from a state without
      one and with an empty slot 3, restores the state. */
  lemma SelectMyCountryTwiceRestores(s: SelState, d: CountryId)
    requires s.myCountry == None && s.slots[MyCountrySlot] == Empty
    ensures SelectMyCountry(SelectMyCountry(s, d), d) == s
  {
    assert SelectMyCountry(SelectMyCountry(s, d), d).slots == s.slots;
  }

  /** The state keeps the chosen country in slot 3. */
  predicate MyCountryInSlot(s: SelState) {
    s.myCountry.Some? ==> s.slots[MyCountrySlot] == Holds(s.myCountry.value)
  }

  lemma SelectMyCountryKeepsSlot(s: SelState, d: CountryId)
    ensures MyCountryInSlot(SelectMyCountry(s, d))
  {
  }

  /** A toggle of any country other than the chosen one keeps the chosen
      country in slot 3. The map's click guard ensures exactly this. */
  lemma UpdateSelectionKeepsSlot(s: SelState, d: CountryId)
    requires MyCountryInSlot(s) && s.myCountry != Some(d)
    ensures MyCountryInSlot(UpdateSelection(s, d))
  {
    if s.myCountry.Some? {
      var m := s.myCountry.value;
      assert s.slots[MyCountrySlot] == Holds(m) != Holds(d);
      if Holds(d) in s.slots {
        assert IndexOf(s.slots, Holds(d)) != MyCountrySlot;
      } else if Empty in s.slots {
        assert IndexOf(s.slots, Empty) != MyCountrySlot;
      }
    }
  }

  /** Without the guard the slot can be lost: toggling the chosen country
      empties slot 3 while the country stays chosen. */
  lemma UnguardedToggleLosesSlot()
    ensures var s := SelState([Empty, Empty, Empty, Holds("004")], Some("004"));
      MyCountryInSlot(s) && !MyCountryInSlot(UpdateSelection(s, "004"))
  {
    var s := SelState([Empty, Empty, Empty, Holds("004")], Some("004"));
    assert IndexOf(s.slots, Holds("004")) == 3;
  }

  // ---------------------------------------------------------------------
  // Colours and highlight precedence
  // ---------------------------------------------------------------------

  /** A fill or stroke colour: a literal hex code, the `regionColor` that
      the views refer to without defining (distinct from every hex code
      here), or the colour scale applied to a happiness score. */
  datatype Colour = Hex(code: string) | RegionColour | Scale(score: real)

  const MyCountryColour: Colour := Hex("#FFA500")

  /** `colors`: one colour per slot; slot 3 has the "my country" colour. */
  const Palette: seq<Colour> := [Hex("#a217dc"), Hex("#01c5a9"), Hex("#1437FF"), MyCountryColour]

  /** The blue the scatterplot and both maps use for region members. */
  const RegionBlue: Colour := Hex("#004488")

  /** The fill of a country that is neither selected nor in the region. */
  const Black: Colour := Hex("#000")

  /** The id a view compares with the selection: a feature's or row's
      country code, `null` (the legend entry of no chosen country) or
      `undefined` (the region-percentile legend entry, a feature without id).
      `===` tells `null` and `undefined` apart. */
  datatype Key = Code(code: CountryId) | Null | Undefined

  /** The first row whose id equals the key (`rows.filter(e => e.id === k)[0]`);
      `null` and `undefined` match no row. */
  function RowOf(rows: seq<Row>, k: Key): (r: Option<Row>)
    ensures r.None? <==> !k.Code? || forall x :: x in rows ==> x.id != k.code
    ensures r.Some? ==> r.value in rows && r.value.id == k.code
  {
    if k.Code? then FindRow(rows, k.code) else None
  }

  predicate Selected(s: SelState, k: Key) {
    k.Code? && Holds(k.code) in s.slots
  }

  predicate InRegion(ids: seq<CountryId>, k: Key) {
    k.Code? && k.code in ids
  }

  /** `myCountry === k`. */
  predicate IsMyCountry(s: SelState, k: Key) {
    match s.myCountry
    case None => k == Null
    case Some(m) => k == Code(m)
  }

  /** Which branch of a view's colour chain applies. */
  datatype Mark = SlotMark(slot: nat) | RegionMark | MyCountryMark | PlainMark

  /** The precedence every view follows: a selected country is marked by
      its first slot, then a region member, then (only in the charts that
      test it) the chosen country, then nothing. */
  function Highlight(s: SelState, ids: seq<CountryId>, k: Key, testsMyCountry: bool): (r: Mark)
    ensures r.SlotMark? <==> Selected(s, k)
    ensures r.SlotMark? ==> r.slot < 4 && r.slot == IndexOf(s.slots, Holds(k.code))
    ensures r.RegionMark? <==> !Selected(s, k) && InRegion(ids, k)
    ensures r.MyCountryMark? <==> testsMyCountry && !Selected(s, k) && !InRegion(ids, k) && IsMyCountry(s, k)
    ensures r.PlainMark? <==>
      !Selected(s, k) && !InRegion(ids, k) && !(testsMyCountry && IsMyCountry(s, k))
  {
    if Selected(s, k) then SlotMark(IndexOf(s.slots, Holds(k.code)))
    else if InRegion(ids, k) then RegionMark
    else if testsMyCountry && IsMyCountry(s, k) then MyCountryMark
    else PlainMark
  }

  /** A region never overrides a slot: the mark of a selected country is the
      same whatever the region. */
  lemma SlotBeatsRegion(s: SelState, ids1: seq<CountryId>, ids2: seq<CountryId>, k: Key, t: bool)
    requires Selected(s, k)
    ensures Highlight(s, ids1, k, t) == Highlight(s, ids2, k, t)
  {
  }

  /** While the chosen country sits in slot 3 the "my country" branch never
      fires for a country code: the slot branch has already claimed it. */
  lemma MyCountryBranchUnreachable(s: SelState, ids: seq<CountryId>, c: CountryId)
    requires MyCountryInSlot(s)
    ensures Highlight(s, ids, Code(c), true) != MyCountryMark
  {
    if s.myCountry == Some(c) {
      assert s.slots[MyCountrySlot] == Holds(c);
      assert Holds(c) in s.slots;
    }
  }
}
