/** The order of the screens: what GET lists from the stored order, and how PATCH checks and stores a new one. */
module ScreenOrder {
  import opened Wrappers
  import opened OrderText

  datatype Screen = Screen(id: int, name: string)

  // Device capabilities and feature switches that decide which screens are hidden.
  datatype Device = Device(screens: seq<Screen>, hiddenIds: seq<int>, miningPoolStats: bool, bitaxe: bool, nwc: bool)

  function CatalogIds(device: Device): (ids: seq<int>)
    ensures |ids| == |device.screens|
  {
    seq(|device.screens|, i requires 0 <= i < |device.screens| => device.screens[i].id)
  }

  function Hidden(device: Device): set<int> {
    (set id | id in device.hiddenIds) + (if device.miningPoolStats then {} else {70, 71, 72})
    + (if device.bitaxe then {} else {80, 81}) + (if device.nwc then {} else {90})
  }

  predicate Distinct(ids: seq<int>) {
    forall i, j | 0 <= i < j < |ids| :: ids[i] != ids[j]
  }

  predicate SoundCatalog(device: Device) {
    Distinct(CatalogIds(device))
  }

  // ---------- what GET lists ----------

  // Ids of the stored order that are in the catalogue, visible, and not listed before.
  function Chosen(stored: seq<int>, catalog: seq<int>, hidden: set<int>): seq<int> {
    if stored == [] then []
    else
      var before, id := Chosen(stored[..|stored| - 1], catalog, hidden), stored[|stored| - 1];
      if id in catalog && id !in hidden && id !in before then before + [id] else before
  }

  function Omitted(catalog: seq<int>, hidden: set<int>, chosen: seq<int>): seq<int> {
    if catalog == [] then []
    else
      var before, id := Omitted(catalog[..|catalog| - 1], hidden, chosen), catalog[|catalog| - 1];
      if id !in hidden && id !in chosen then before + [id] else before
  }

  function Listed(stored: seq<int>, catalog: seq<int>, hidden: set<int>): seq<int> {
    var chosen := Chosen(stored, catalog, hidden);
    chosen + Omitted(catalog, hidden, chosen)
  }

  function Visible(ids: seq<int>, hidden: set<int>): seq<int> {
    Omitted(ids, hidden, [])
  }

  lemma {:induction false} ChosenMembers(stored: seq<int>, catalog: seq<int>, hidden: set<int>)
    ensures var c := Chosen(stored, catalog, hidden);
      Distinct(c) && forall id :: id in c <==> id in stored && id in catalog && id !in hidden
  {
    if stored != [] {
      var init, id := stored[..|stored| - 1], stored[|stored| - 1];
      ChosenMembers(init, catalog, hidden);
      assert stored == init + [id];
    }
  }

  lemma {:induction false} OmittedMembers(catalog: seq<int>, hidden: set<int>, chosen: seq<int>)
    requires Distinct(catalog)
    ensures var o := Omitted(catalog, hidden, chosen);
      Distinct(o) && forall id :: id in o <==> id in catalog && id !in hidden && id !in chosen
  {
    if catalog != [] {
      var init, id := catalog[..|catalog| - 1], catalog[|catalog| - 1];
      OmittedMembers(init, hidden, chosen);
      assert catalog == init + [id];
    }
  }

  lemma {:induction false} DistinctMultiset(ids: seq<int>)
    requires Distinct(ids)
    ensures forall id :: multiset(ids)[id] == if id in ids then 1 else 0
  {
    if ids != [] {
      DistinctMultiset(ids[..|ids| - 1]);
      assert ids == ids[..|ids| - 1] + [ids[|ids| - 1]];
    }
  }

  lemma DistinctTogether(a: seq<int>, b: seq<int>)
    requires Distinct(a) && Distinct(b) && forall id | id in b :: id !in a
    ensures Distinct(a + b)
  {
    var c := a + b;
    forall i, j | 0 <= i < j < |c| ensures c[i] != c[j] {
      if i < |a| <= j { assert c[j] in b; }
    }
  }

  // Whatever text is stored, GET lists every visible screen exactly once.
  lemma ListedIsVisible(stored: seq<int>, catalog: seq<int>, hidden: set<int>)
    requires Distinct(catalog)
    ensures Distinct(Listed(stored, catalog, hidden))
    ensures multiset(Listed(stored, catalog, hidden)) == multiset(Visible(catalog, hidden))
  {
    var chosen := Chosen(stored, catalog, hidden);
    ChosenMembers(stored, catalog, hidden);
    OmittedMembers(catalog, hidden, chosen);
    OmittedMembers(catalog, hidden, []);
    var listed, visible := Listed(stored, catalog, hidden), Visible(catalog, hidden);
    assert forall id :: id in listed <==> id in catalog && id !in hidden;
    DistinctTogether(chosen, Omitted(catalog, hidden, chosen));
    DistinctMultiset(listed);
    DistinctMultiset(visible);
    forall id ensures multiset(listed)[id] == multiset(visible)[id] {}
  }

  // A screen is listed unless the device hides it, or it shows a mining pool (70, 71, 72), a Bitaxe (80, 81) or a
  // wallet (90) that is switched off.
  lemma ListedExactly(device: Device, stored: seq<int>, id: int)
    requires SoundCatalog(device)
    ensures id in Listed(stored, CatalogIds(device), Hidden(device)) <==>
              && (exists k :: 0 <= k < |device.screens| && device.screens[k].id == id) && id !in device.hiddenIds
              && (device.miningPoolStats || (id != 70 && id != 71 && id != 72))
              && (device.bitaxe || (id != 80 && id != 81)) && (device.nwc || id != 90)
  {
    var catalog, hidden := CatalogIds(device), Hidden(device);
    ChosenMembers(stored, catalog, hidden);
    OmittedMembers(catalog, hidden, Chosen(stored, catalog, hidden));
    hide Chosen, Omitted;
    assert id in catalog <==> exists k :: 0 <= k < |device.screens| && device.screens[k].id == id by {
      if id in catalog {
        var k :| 0 <= k < |catalog| && catalog[k] == id;
        assert device.screens[k].id == id;
      }
      if k :| 0 <= k < |device.screens| && device.screens[k].id == id { assert catalog[k] == id; }
    }
  }

  // ---------- reading the stored order ----------

  // One token, up to the next comma or the end.
  method ReadToken(csv: string, pos: nat) returns (token: string, next: nat)
    requires pos < |csv|
    ensures token == csv[pos..][..Comma(csv[pos..])] && next == pos + Comma(csv[pos..]) + 1
  {
    next := pos;
    while next < |csv| && csv[next] != ','
      invariant pos <= next <= |csv| && Comma(csv[pos..]) == next - pos + Comma(csv[next..])
    {
      assert csv[next..][1..] == csv[next + 1..];
      next := next + 1;
    }
    token := csv[pos..next];
    next := next + 1;
  }

  // The value of a token of digits; `any` is false and `bad` true for the tokens to skip.
  method ReadNumber(token: string) returns (v: nat, ok: bool)
    ensures Number(token) == if ok then Some(v) else None
  {
    v := 0;
    var any, bad := false, false;
    for i := 0 to |token|
      invariant AllDigits(token[..i]) && v == ValueOf(token[..i]) && any == (i > 0) && !bad
    {
      if !IsDigit(token[i]) {
        bad := true;
        break;
      }
      assert token[..i + 1][..i] == token[..i];
      v := v * 10 + DigitOf(token[i]);
      any := true;
    }
    assert !bad ==> token[..|token|] == token;
    ok := any && !bad;
  }

  // ---------- GET ----------

  datatype Slot = Slot(id: int, name: string, order: nat)

  function Rest(csv: string, pos: nat): seq<string> {
    if pos >= |csv| then [] else Tokens(csv[pos..])
  }

  // The ids of the stored text that may be listed, without repetition.
  method ReadOrder(csv: string, catalogIds: set<int>, hidden: set<int>, ghost catalog: seq<int>)
    returns (emittedIds: seq<int>, alreadyEmitted: set<int>)
    requires forall id :: id in catalogIds <==> id in catalog
    ensures emittedIds == Chosen(Numbers(Tokens(csv)), catalog, hidden)
    ensures forall id :: id in alreadyEmitted <==> id in emittedIds
  {
    hide Tokens, Number, Numbers, Chosen, Rest, Comma;
    emittedIds, alreadyEmitted := [], {};
    var pos := 0;
    ghost var done: seq<string> := [];
    NoRest(csv);
    NothingChosen(catalog, hidden);
    while pos < |csv|
      invariant done + Rest(csv, pos) == Tokens(csv)
      invariant emittedIds == Chosen(Numbers(done), catalog, hidden)
      invariant forall id :: id in alreadyEmitted <==> id in emittedIds
      decreases |csv| - pos
    {
      RestUnfolds(csv, pos);
      var item, next := ReadToken(csv, pos);
      pos := next;
      OneMoreToken(done, item, catalog, hidden);
      done := done + [item];
      var v, ok := ReadNumber(item);
      if !ok { continue; }
      if v !in catalogIds { continue; }
      if v in hidden { continue; }
      if v in alreadyEmitted { continue; }
      alreadyEmitted := alreadyEmitted + {v};
      emittedIds := emittedIds + [v];
    }
    NothingLeft(csv, pos);
    assert done + [] == done;
  }

  lemma NothingChosen(catalog: seq<int>, hidden: set<int>)
    ensures Chosen(Numbers([]), catalog, hidden) == []
  {}

  lemma NothingLeft(csv: string, pos: nat)
    requires pos >= |csv|
    ensures Rest(csv, pos) == []
  {}

  lemma NoRest(csv: string)
    ensures Rest(csv, 0) == Tokens(csv)
  {
    if csv != "" { assert csv[0..] == csv; }
  }

  lemma RestUnfolds(csv: string, pos: nat)
    requires pos < |csv|
    ensures var k := Comma(csv[pos..]); Rest(csv, pos) == [csv[pos..][..k]] + Rest(csv, pos + k + 1)
  {
    var s := csv[pos..];
    var k := Comma(s);
    if k < |s| {
      assert s[k + 1..] == csv[pos + k + 1..];
      NoTokens();
      if k + 1 == |s| { assert s[k + 1..] == ""; }
    }
  }

  lemma OneMoreToken(done: seq<string>, item: string, catalog: seq<int>, hidden: set<int>)
    ensures var before := Chosen(Numbers(done), catalog, hidden);
      Chosen(Numbers(done + [item]), catalog, hidden)
        == match Number(item)
           case None => before
           case Some(v) => if v in catalog && v !in hidden && v !in before then before + [v] else before
  {
    hide Number;
    var numbers := Numbers(done);
    assert (done + [item])[..|done|] == done;
    if Number(item).Some? {
      assert (numbers + [Number(item).value])[..|numbers|] == numbers;
    } else {
      assert Numbers(done + [item]) == numbers;
    }
  }

  function NamesOf(screens: seq<Screen>): (names: map<int, string>)
    ensures forall id :: id in names <==> exists i :: 0 <= i < |screens| && screens[i].id == id
    ensures forall id | id in names :: Screen(id, names[id]) in screens
  {
    if screens == [] then map[]
    else
      var last := screens[|screens| - 1];
      NamesOf(screens[..|screens| - 1])[last.id := last.name]
  }

  // The screens a GET reports, in order, numbered from 0.
  method BuildScreens(device: Device, csv: string) returns (slots: seq<Slot>)
    ensures var ids := Listed(Numbers(Tokens(csv)), CatalogIds(device), Hidden(device));
      && |slots| == |ids|
      && forall k | 0 <= k < |slots| ::
         slots[k].id == ids[k] && slots[k].order == k && Screen(ids[k], slots[k].name) in device.screens
  {
    hide Hidden, Numbers, Tokens, Chosen, Omitted;
    var hidden := Hidden(device);
    ghost var catalog := CatalogIds(device);
    var catalogIds := set s | s in device.screens :: s.id;
    assert forall id :: id in catalogIds <==> id in catalog by { SameIds(device, catalogIds); }
    var emittedIds, alreadyEmitted := ReadOrder(csv, catalogIds, hidden, catalog);
    ghost var chosen := emittedIds;
    NoneOmitted(hidden, chosen);
    for i := 0 to |device.screens|
      invariant emittedIds == chosen + Omitted(catalog[..i], hidden, chosen)
    {
      OmittedStep(catalog, hidden, chosen, i);
      var id := device.screens[i].id;
      if id in hidden { continue; }
      if id in alreadyEmitted { continue; }
      emittedIds := emittedIds + [id];
    }
    assert catalog[..|catalog|] == catalog;
    assert emittedIds == Listed(Numbers(Tokens(csv)), catalog, hidden);
    var byId := NamesOf(device.screens);
    ListedInCatalog(Numbers(Tokens(csv)), catalog, hidden);
    slots := [];
    for k := 0 to |emittedIds|
      invariant |slots| == k
      invariant forall j | 0 <= j < k ::
        slots[j].id == emittedIds[j] && slots[j].order == j && Screen(emittedIds[j], slots[j].name) in device.screens
    {
      var id := emittedIds[k];
      assert id in catalog;
      assert id in byId by { var i :| 0 <= i < |catalog| && catalog[i] == id; assert device.screens[i].id == id; }
      slots := slots + [Slot(id, byId[id], k)];
    }
  }

  lemma SameIds(device: Device, ids: set<int>)
    requires ids == set s | s in device.screens :: s.id
    ensures forall id :: id in ids <==> id in CatalogIds(device)
  {
    var catalog := CatalogIds(device);
    forall i | 0 <= i < |catalog| ensures catalog[i] in ids { assert device.screens[i] in device.screens; }
    forall id | id in ids ensures id in catalog {
      var s :| s in device.screens && s.id == id;
      var i :| 0 <= i < |device.screens| && device.screens[i] == s;
      assert catalog[i] == id;
    }
  }

  lemma NoneOmitted(hidden: set<int>, chosen: seq<int>)
    ensures Omitted([], hidden, chosen) == []
  {}

  lemma OmittedStep(catalog: seq<int>, hidden: set<int>, chosen: seq<int>, i: nat)
    requires i < |catalog|
    ensures Omitted(catalog[..i + 1], hidden, chosen)
         == Omitted(catalog[..i], hidden, chosen)
          + if catalog[i] !in hidden && catalog[i] !in chosen then [catalog[i]] else []
  {
    assert catalog[..i + 1][..i] == catalog[..i];
  }

  lemma ListedInCatalog(stored: seq<int>, catalog: seq<int>, hidden: set<int>)
    ensures forall id | id in Listed(stored, catalog, hidden) :: id in catalog
  {
    ChosenMembers(stored, catalog, hidden);
    OmittedInCatalog(catalog, hidden, Chosen(stored, catalog, hidden));
  }

  lemma {:induction false} OmittedInCatalog(catalog: seq<int>, hidden: set<int>, chosen: seq<int>)
    ensures forall id | id in Omitted(catalog, hidden, chosen) :: id in catalog
  {
    if catalog != [] {
      var init := catalog[..|catalog| - 1];
      OmittedInCatalog(init, hidden, chosen);
      assert catalog == init + [catalog[|catalog| - 1]];
    }
  }

  // ---------- PATCH ----------

  // An entry of the request; a field is None when it is missing or not a number.
  datatype Entry = Entry(id: Option<int>, order: Option<int>)

  // A reorder: every entry names a known screen and a place, no screen and no place comes twice, and there are as many
  // entries as visible screens, or as screens. Only the numbers are compared.
  ghost predicate IsReorder(entries: seq<Entry>, device: Device) {
    && (forall k | 0 <= k < |entries| :: GoodEntry(entries, k, device))
    && (device.screens == [] || |entries| == |IdSet(device) - Hidden(device)| || |entries| == |IdSet(device)|)
  }

  function IdSet(device: Device): set<int> {
    set s | s in device.screens :: s.id
  }

  // Entry k is well formed and repeats nothing before it.
  ghost predicate GoodEntry(entries: seq<Entry>, k: nat, device: Device)
    requires k < |entries|
  {
    EntryProblem(entries, k, device).None?
  }

  function EntryProblem(entries: seq<Entry>, k: nat, device: Device): Option<string>
    requires k < |entries|
  {
    var e := entries[k];
    if e.id.None? || e.order.None? then Some("screens:bad_entry")
    else if device.screens != [] && e.id.value !in IdSet(device) then Some("screens:unknown_id")
    else if exists j :: 0 <= j < k && entries[j].id == e.id then Some("screens:dup_id")
    else if e.order.value < 0 || e.order.value >= |entries| then Some("screens:order_range")
    else if exists j :: 0 <= j < k && entries[j].order == e.order then Some("screens:dup_order")
    else None
  }

  // The id at every place.
  ghost predicate Arranges(ids: seq<int>, entries: seq<Entry>) {
    |ids| == |entries| && forall o | 0 <= o < |ids| :: Entry(Some(ids[o]), Some(o)) in entries
  }

  predicate SomeOrdered(entries: seq<Entry>) {
    exists k :: 0 <= k < |entries| && entries[k].order.Some?
  }

  predicate AllOrdered(entries: seq<Entry>) {
    forall k | 0 <= k < |entries| :: entries[k].order.Some?
  }

  datatype Status = Ok | BadRequest(error: string)

  // The stored settings, and which of them a request has changed.
  class Preferences {
    var screenOrder: string
    var touched: bool

    constructor (screenOrder: string)
      ensures this.screenOrder == screenOrder && !touched
    {
      this.screenOrder, touched := screenOrder, false;
    }
  }

  // The places and ids of the entries, in the order of the request; or the first thing wrong with them.
  method CollectPairs(device: Device, entries: seq<Entry>)
    returns (status: Status, pairs: seq<(int, int)>, seenIds: set<int>, ghost bad: nat)
    ensures status == Ok ==> (forall k | 0 <= k < |entries| :: GoodEntry(entries, k, device)) && |pairs| == |entries|
    ensures status == Ok ==> forall k | 0 <= k < |entries| :: entries[k] == Entry(Some(pairs[k].1), Some(pairs[k].0))
    ensures status == Ok ==> |seenIds| == |entries|
    ensures status != Ok ==> bad < |entries| && EntryProblem(entries, bad, device) == Some(status.error)
    ensures status != Ok ==> forall j | 0 <= j < bad :: GoodEntry(entries, j, device)
  {
    hide IdSet;
    status, pairs, seenIds, bad := Ok, [], {}, 0;
    var catalog := IdSet(device);
    var seenOrders: set<int> := {};
    for k := 0 to |entries|
      invariant forall j | 0 <= j < k :: GoodEntry(entries, j, device)
      invariant |pairs| == |seenIds| == k
        && forall j | 0 <= j < k :: entries[j] == Entry(Some(pairs[j].1), Some(pairs[j].0))
      invariant forall id :: id in seenIds <==> exists j :: 0 <= j < k && entries[j].id == Some(id)
      invariant forall o :: o in seenOrders <==> exists j :: 0 <= j < k && entries[j].order == Some(o)
    {
      var e := entries[k];
      if e.id.None? || e.order.None? {
        return BadRequest("screens:bad_entry"), pairs, seenIds, k;
      }
      var iid, iord := e.id.value, e.order.value;
      if device.screens != [] && iid !in catalog {
        return BadRequest("screens:unknown_id"), pairs, seenIds, k;
      }
      if iid in seenIds {
        return BadRequest("screens:dup_id"), pairs, seenIds, k;
      }
      seenIds := seenIds + {iid};
      if iord < 0 || iord >= |entries| {
        return BadRequest("screens:order_range"), pairs, seenIds, k;
      }
      if iord in seenOrders {
        return BadRequest("screens:dup_order"), pairs, seenIds, k;
      }
      seenOrders := seenOrders + {iord};
      pairs := pairs + [(iord, iid)];
    }
  }

  predicate OrderedPairs(pairs: seq<(int, int)>) {
    forall i, j | 0 <= i < j < |pairs| :: pairs[i].0 <= pairs[j].0
  }

  predicate DistinctPlaces(pairs: seq<(int, int)>) {
    forall i, j | 0 <= i < j < |pairs| :: pairs[i].0 != pairs[j].0
  }

  // Sorts by place; stands for the library sort.
  method SortPairs(pairs: seq<(int, int)>) returns (sorted: seq<(int, int)>)
    ensures OrderedPairs(sorted) && |sorted| == |pairs| && multiset(sorted) == multiset(pairs)
    ensures DistinctPlaces(pairs) ==> DistinctPlaces(sorted)
  {
    hide OrderedPairs, DistinctPlaces;
    sorted := [];
    NoPairs();
    for i := 0 to |pairs|
      invariant OrderedPairs(sorted) && |sorted| == i && multiset(sorted) == multiset(pairs[..i])
      invariant DistinctPlaces(pairs) ==> DistinctPlaces(sorted)
    {
      var k, p := |sorted|, pairs[i];
      while k > 0 && p.0 < sorted[k - 1].0
        invariant 0 <= k <= |sorted| && forall j | k <= j < |sorted| :: p.0 < sorted[j].0
      {
        k := k - 1;
      }
      assert pairs[..i + 1] == pairs[..i] + [p];
      InsertedSorted(p, sorted, k);
      InsertedDistinct(pairs[..i], p, sorted, k);
      PrefixDistinct(pairs, i + 1);
      sorted := sorted[..k] + [p] + sorted[k..];
    }
    assert pairs[..|pairs|] == pairs;
  }

  lemma NoPairs()
    ensures OrderedPairs([]) && DistinctPlaces([])
  {}

  lemma PrefixDistinct(pairs: seq<(int, int)>, i: nat)
    requires i <= |pairs|
    ensures DistinctPlaces(pairs) ==> DistinctPlaces(pairs[..i])
  {}

  lemma InsertedSorted(p: (int, int), sorted: seq<(int, int)>, k: nat)
    requires k <= |sorted| && OrderedPairs(sorted) && (k > 0 ==> sorted[k - 1].0 <= p.0)
    requires forall j | k <= j < |sorted| :: p.0 < sorted[j].0
    ensures var r := sorted[..k] + [p] + sorted[k..]; OrderedPairs(r) && multiset(r) == multiset(sorted) + multiset{p}
  {
    InsertedCounts(p, sorted, k);
    var r := sorted[..k] + [p] + sorted[k..];
    forall i, j | 0 <= i < j < |r| ensures r[i].0 <= r[j].0 {
      if i < k == j { assert sorted[i].0 <= sorted[k - 1].0; }
    }
  }

  lemma InsertedCounts(p: (int, int), sorted: seq<(int, int)>, k: nat)
    requires k <= |sorted|
    ensures multiset(sorted[..k] + [p] + sorted[k..]) == multiset(sorted) + multiset{p}
  {
    assert sorted == sorted[..k] + sorted[k..];
  }

  lemma InsertedDistinct(before: seq<(int, int)>, p: (int, int), sorted: seq<(int, int)>, k: nat)
    requires k <= |sorted| && multiset(sorted) == multiset(before)
    ensures DistinctPlaces(sorted) && DistinctPlaces(before + [p]) ==> DistinctPlaces(sorted[..k] + [p] + sorted[k..])
  {
    if DistinctPlaces(sorted) && DistinctPlaces(before + [p]) {
      forall q | q in sorted ensures q.0 != p.0 {
        assert q in multiset(sorted);
        var m :| 0 <= m < |before| && before[m] == q;
        assert (before + [p])[m] == q && (before + [p])[|before|] == p;
      }
    }
  }

  // Distinct places from 0 up, as many as there are entries, sorted: the k-th is k.
  lemma PlacesCount(sorted: seq<(int, int)>)
    requires OrderedPairs(sorted) && DistinctPlaces(sorted)
    requires forall i | 0 <= i < |sorted| :: 0 <= sorted[i].0 < |sorted|
    ensures forall k | 0 <= k < |sorted| :: sorted[k].0 == k
  {
    forall k | 0 <= k < |sorted| ensures sorted[k].0 == k {
      AtLeast(sorted, k);
      AtMost(sorted, k);
    }
  }

  lemma {:induction false} AtLeast(sorted: seq<(int, int)>, k: nat)
    requires k < |sorted| && forall i, j | 0 <= i < j < |sorted| :: sorted[i].0 < sorted[j].0
    requires forall i | 0 <= i < |sorted| :: 0 <= sorted[i].0
    ensures sorted[k].0 >= k
  {
    if k > 0 { AtLeast(sorted, k - 1); }
  }

  lemma {:induction false} AtMost(sorted: seq<(int, int)>, k: nat)
    requires k < |sorted| && forall i, j | 0 <= i < j < |sorted| :: sorted[i].0 < sorted[j].0
    requires forall i | 0 <= i < |sorted| :: sorted[i].0 < |sorted|
    ensures sorted[k].0 <= k
    decreases |sorted| - k
  {
    if k + 1 < |sorted| { AtMost(sorted, k + 1); }
  }

  predicate PairsOf(pairs: seq<(int, int)>, entries: seq<Entry>) {
    |pairs| == |entries| && forall k | 0 <= k < |entries| :: entries[k] == Entry(Some(pairs[k].1), Some(pairs[k].0))
  }

  // Good entries put one screen at every place.
  lemma SortedArranges(entries: seq<Entry>, device: Device, pairs: seq<(int, int)>, sorted: seq<(int, int)>,
                       ids: seq<int>)
    requires PairsOf(pairs, entries) && OrderedPairs(sorted) && multiset(sorted) == multiset(pairs)
      && |sorted| == |pairs|
    requires DistinctPlaces(pairs) ==> DistinctPlaces(sorted)
    requires forall k | 0 <= k < |entries| :: GoodEntry(entries, k, device)
    requires |ids| == |sorted| && forall k | 0 <= k < |ids| :: ids[k] == sorted[k].1
    ensures Arranges(ids, entries)
  {
    GoodPlaces(entries, device, pairs);
    forall k | 0 <= k < |sorted| ensures sorted[k] in pairs { assert sorted[k] in multiset(sorted); }
    PlacesCount(sorted);
    forall o | 0 <= o < |ids| ensures Entry(Some(ids[o]), Some(o)) in entries {
      assert sorted[o] in multiset(sorted);
      var k :| 0 <= k < |pairs| && pairs[k] == sorted[o];
      assert entries[k] == Entry(Some(ids[o]), Some(o));
    }
  }

  lemma GoodPlaces(entries: seq<Entry>, device: Device, pairs: seq<(int, int)>)
    requires PairsOf(pairs, entries) && forall k | 0 <= k < |entries| :: GoodEntry(entries, k, device)
    ensures forall k | 0 <= k < |pairs| :: 0 <= pairs[k].0 < |pairs|
    ensures DistinctPlaces(pairs) && forall i, j | 0 <= i < j < |pairs| :: pairs[i].1 != pairs[j].1
  {
    hide IdSet;
    forall k | 0 <= k < |pairs| ensures 0 <= pairs[k].0 < |pairs| { assert GoodEntry(entries, k, device); }
    forall i, j | 0 <= i < j < |pairs| ensures pairs[i].0 != pairs[j].0 && pairs[i].1 != pairs[j].1 {
      assert GoodEntry(entries, j, device);
      assert entries[i].id == Some(pairs[i].1) && entries[i].order == Some(pairs[i].0);
    }
  }

  // The stored text of a sorted list of pairs.
  method JoinIds(sorted: seq<(int, int)>) returns (csv: string, ghost ids: seq<int>)
    ensures |ids| == |sorted| && (forall k | 0 <= k < |ids| :: ids[k] == sorted[k].1) && csv == Joined(ids)
  {
    hide ToString;
    csv, ids := "", [];
    for k := 0 to |sorted|
      invariant |ids| == k && (forall j | 0 <= j < k :: ids[j] == sorted[j].1) && csv == Joined(ids)
    {
      assert (ids + [sorted[k].1])[..k] == ids;
      if csv != "" { csv := csv + ","; }
      csv := csv + ToString(sorted[k].1);
      ids := ids + [sorted[k].1];
    }
  }

  // Checks a request and stores its order. A request that places no screen is fine and stores nothing.
  method ApplyReorder(device: Device, entries: seq<Entry>, prefs: Preferences)
    returns (status: Status, ghost ids: seq<int>)
    modifies prefs
    ensures status == Ok <==> !SomeOrdered(entries) || (AllOrdered(entries) && IsReorder(entries, device))
    ensures status != Ok || !SomeOrdered(entries) ==>
      prefs.screenOrder == old(prefs.screenOrder) && prefs.touched == old(prefs.touched)
    ensures status == Ok && SomeOrdered(entries) ==> Arranges(ids, entries) && prefs.screenOrder == Joined(ids)
    ensures status == Ok ==> prefs.touched == (old(prefs.touched) || prefs.screenOrder != old(prefs.screenOrder))
  {
    hide Hidden, IdSet, Joined;
    ids := [];
    var anyOrder, allOrder := false, true;
    for k := 0 to |entries|
      invariant anyOrder == (exists j :: 0 <= j < k && entries[j].order.Some?)
      invariant allOrder == (forall j | 0 <= j < k :: entries[j].order.Some?)
    {
      if entries[k].order.Some? { anyOrder := true; } else { allOrder := false; }
    }
    assert anyOrder == SomeOrdered(entries) && allOrder == AllOrdered(entries);
    if anyOrder && !allOrder {
      return BadRequest("screens:partial_order"), ids;
    }
    if anyOrder {
      var pairs, seenIds;
      ghost var bad;
      status, pairs, seenIds, bad := CollectPairs(device, entries);
      if status != Ok {
        assert !GoodEntry(entries, bad, device);
        return;
      }
      if device.screens != [] && |seenIds| != |IdSet(device) - Hidden(device)| && |seenIds| != |IdSet(device)| {
        return BadRequest("screens:incomplete"), ids;
      }
      var sorted := SortPairs(pairs);
      var orderCsv;
      orderCsv, ids := JoinIds(sorted);
      SortedArranges(entries, device, pairs, sorted, ids);
      if prefs.screenOrder != orderCsv {
        prefs.screenOrder := orderCsv;
        prefs.touched := true;
      }
    }
    status := Ok;
  }

  // ---------- which reorders are complete ----------

  function EntryIds(entries: seq<Entry>): set<int> {
    set e | e in entries && e.id.Some? :: e.id.value
  }

  // Every visible screen has an entry.
  ghost predicate CoversVisible(entries: seq<Entry>, device: Device) {
    IdSet(device) - Hidden(device) <= EntryIds(entries)
  }

  ghost predicate NamesHidden(entries: seq<Entry>, device: Device) {
    EntryIds(entries) * Hidden(device) != {}
  }

  lemma {:induction false} DistinctIdsCount(entries: seq<Entry>)
    requires forall i, j | 0 <= i < j < |entries| :: entries[i].id != entries[j].id
    requires forall i | 0 <= i < |entries| :: entries[i].id.Some?
    ensures |EntryIds(entries)| == |entries|
  {
    if entries != [] {
      var init, e := entries[..|entries| - 1], entries[|entries| - 1];
      DistinctIdsCount(init);
      assert EntryIds(entries) == EntryIds(init) + {e.id.value};
      assert e.id.value !in EntryIds(init);
    }
  }

  lemma {:induction false} SubsetCount<T>(a: set<T>, b: set<T>)
    requires a <= b
    ensures |a| <= |b| && (|a| == |b| ==> a == b)
  {
    if a != {} {
      var x :| x in a;
      SubsetCount(a - {x}, b - {x});
    }
  }

  // A reorder that is accepted covers every visible screen exactly when it names no hidden one, or all screens.
  lemma CompleteExactly(entries: seq<Entry>, device: Device)
    requires device.screens != [] && IsReorder(entries, device)
    ensures CoversVisible(entries, device) <==> !NamesHidden(entries, device) || |entries| == |IdSet(device)|
  {
    hide IdSet, Hidden;
    var named, all, visible := EntryIds(entries), IdSet(device), IdSet(device) - Hidden(device);
    forall i | 0 <= i < |entries|
      ensures entries[i].id.Some? && entries[i].id.value in all
        && forall j | 0 <= j < i :: entries[j].id != entries[i].id
    {
      assert GoodEntry(entries, i, device);
    }
    DistinctIdsCount(entries);
    SubsetCount(named, all);
    if !NamesHidden(entries, device) {
      assert named <= visible by {
        forall id | id in named ensures id in visible { assert id !in EntryIds(entries) * Hidden(device); }
      }
      SubsetCount(named, visible);
      SubsetCount(visible, all);
    }
    if CoversVisible(entries, device) {
      SubsetCount(visible, named);
    }
  }

  // Three screens of which the last is hidden. A reorder of the first and the last is accepted, and leaves the second
  // out.
  lemma IncompleteAccepted()
    ensures var device := Device([Screen(1, "a"), Screen(2, "b"), Screen(70, "c")], [], false, true, true);
      var entries := [Entry(Some(1), Some(0)), Entry(Some(70), Some(1))];
      IsReorder(entries, device) && !CoversVisible(entries, device)
  {
    var device := Device([Screen(1, "a"), Screen(2, "b"), Screen(70, "c")], [], false, true, true);
    var entries := [Entry(Some(1), Some(0)), Entry(Some(70), Some(1))];
    assert device.screens[0].id == 1 && device.screens[1].id == 2 && device.screens[2].id == 70;
    assert IdSet(device) == {1, 2, 70};
    assert IdSet(device) - Hidden(device) == {1, 2};
    assert GoodEntry(entries, 0, device) && GoodEntry(entries, 1, device);
    assert 2 in IdSet(device) - Hidden(device) && 2 !in EntryIds(entries);
  }

  // ---------- PATCH, then GET ----------

  lemma ArrangedIds(ids: seq<int>, entries: seq<Entry>, device: Device)
    requires IsReorder(entries, device) && Arranges(ids, entries) && device.screens != []
    ensures Distinct(ids) && forall id | id in ids :: id in IdSet(device)
  {
    hide IdSet, Hidden;
    forall i | 0 <= i < |ids| ensures ids[i] in IdSet(device) {
      var k :| 0 <= k < |entries| && entries[k] == Entry(Some(ids[i]), Some(i));
      assert GoodEntry(entries, k, device);
    }
    forall i, j | 0 <= i < j < |ids| ensures ids[i] != ids[j] {
      var k :| 0 <= k < |entries| && entries[k] == Entry(Some(ids[i]), Some(i));
      var m :| 0 <= m < |entries| && entries[m] == Entry(Some(ids[j]), Some(j));
      assert GoodEntry(entries, k, device) && GoodEntry(entries, m, device);
    }
  }

  lemma {:induction false} ChosenAll(ids: seq<int>, catalog: seq<int>, hidden: set<int>)
    requires Distinct(ids) && forall id | id in ids :: id in catalog
    ensures Chosen(ids, catalog, hidden) == Visible(ids, hidden)
  {
    if ids != [] {
      var init, id := ids[..|ids| - 1], ids[|ids| - 1];
      assert ids == init + [id];
      ChosenAll(init, catalog, hidden);
      ChosenMembers(init, catalog, hidden);
    }
  }

  // After an accepted reorder GET lists the screens in the new order without the hidden ones, and then the visible
  // screens that the request left out, as the catalogue has them. The capabilities may have changed in between.
  lemma PatchThenGet(entries: seq<Entry>, ids: seq<int>, device: Device, hidden: set<int>)
    requires SoundCatalog(device) && device.screens != [] && (forall id | id in CatalogIds(device) :: 0 <= id)
    requires IsReorder(entries, device) && Arranges(ids, entries)
    ensures Listed(Numbers(Tokens(Joined(ids))), CatalogIds(device), hidden)
         == Visible(ids, hidden) + Omitted(CatalogIds(device), hidden, Visible(ids, hidden))
  {
    hide Numbers, Tokens, Joined, Chosen, Omitted, Hidden;
    ArrangedIds(ids, entries, device);
    SameIds(device, IdSet(device));
    forall i | 0 <= i < |ids| ensures 0 <= ids[i] { assert ids[i] in ids && ids[i] in CatalogIds(device); }
    ListRoundTrip(ids);
    ChosenAll(ids, CatalogIds(device), hidden);
  }

  // Storing the order that GET lists changes nothing in what GET lists.
  lemma GetIsStable(stored: seq<int>, device: Device)
    requires SoundCatalog(device) && forall id | id in CatalogIds(device) :: 0 <= id
    ensures var catalog, hidden := CatalogIds(device), Hidden(device); var listed := Listed(stored, catalog, hidden);
      Listed(Numbers(Tokens(Joined(listed))), catalog, hidden) == listed
  {
    hide Numbers, Tokens, Joined, Chosen, Hidden;
    var catalog, hidden := CatalogIds(device), Hidden(device);
    var listed := Listed(stored, catalog, hidden);
    ChosenMembers(stored, catalog, hidden);
    OmittedMembers(catalog, hidden, Chosen(stored, catalog, hidden));
    ListedIsVisible(stored, catalog, hidden);
    forall i | 0 <= i < |listed|
      ensures listed[i] in catalog && listed[i] !in hidden && 0 <= listed[i]
    {
      assert listed[i] in listed;
    }
    ListRoundTrip(listed);
    ChosenAll(listed, catalog, hidden);
    NothingHidden(listed, hidden);
    NothingOmitted(catalog, hidden, listed);
  }

  lemma {:induction false} NothingHidden(ids: seq<int>, hidden: set<int>)
    requires forall i | 0 <= i < |ids| :: ids[i] !in hidden
    ensures Visible(ids, hidden) == ids
  {
    if ids != [] { NothingHidden(ids[..|ids| - 1], hidden); }
  }

  lemma {:induction false} NothingOmitted(catalog: seq<int>, hidden: set<int>, chosen: seq<int>)
    requires forall id | id in catalog && id !in hidden :: id in chosen
    ensures Omitted(catalog, hidden, chosen) == []
  {
    if catalog != [] {
      assert catalog[|catalog| - 1] in catalog;
      NothingOmitted(catalog[..|catalog| - 1], hidden, chosen);
    }
  }
}
