/**
 * The column configuration of the example table's filter controller: the
 * nine columns, the three places a column key can be (hidden, shown,
 * featured), the range filter attached to each featured key, the way the
 * configuration is persisted and restored, and every change the controller
 * makes to it, as functions from the old configuration to the new one.
 *
 * `featuredColumns` is a JavaScript object whose key order is observable
 * (`Object.keys`, the order `clearAllFilters` appends keys in), so it is
 * modelled as an association list with distinct keys. Assigning an existing
 * key keeps its position; a new key goes at the end.
 */
module FilterState {
  import opened Wrappers

  datatype Column = Column(key: string, name: string, category: string, filterable: bool)

  /** The columns the controller defines, in display order. */
  const AllColumns: seq<Column> := [
    Column("name", "Name", "Identifiers", false),
    Column("category", "Category", "Identifiers", false),
    Column("status", "Status", "Identifiers", false),
    Column("priority", "Priority", "Metrics", true),
    Column("score", "Score", "Metrics", true),
    Column("complexity", "Complexity", "Metrics", true),
    Column("speed", "Speed", "Metrics", true),
    Column("quality", "Quality", "Metrics", true),
    Column("average_metrics", "Avg Metrics", "Metrics", true)
  ]

  function ColumnKeys(cols: seq<Column>): (r: seq<string>)
    ensures |r| == |cols| && forall i :: 0 <= i < |cols| ==> r[i] == cols[i].key
  {
    if cols == [] then [] else [cols[0].key] + ColumnKeys(cols[1..])
  }

  /**
   * A featured column's range, in whole percentiles, and its mode. The mode is
   * the JavaScript string; the empty string stands for a missing or empty
   * mode, which the controller treats as `'filter'`.
   */
  datatype RangeFilter = RangeFilter(min: int, max: int, mode: string)

  type Featured = seq<(string, RangeFilter)>

  /** `mode || 'filter'`. */
  function EffectiveMode(mode: string): (m: string)
    ensures m != ""
    ensures mode != "" ==> m == mode
  {
    if mode == "" then "filter" else mode
  }

  predicate Distinct(s: seq<string>) {
    forall i, j :: 0 <= i < j < |s| ==> s[i] != s[j]
  }

  function Keys(f: Featured): (r: seq<string>)
    ensures |r| == |f| && forall i :: 0 <= i < |f| ==> r[i] == f[i].0
  {
    if f == [] then [] else [f[0].0] + Keys(f[1..])
  }

  /** The entry of `k`, the first one if there were several. */
  function Lookup(f: Featured, k: string): (r: Option<RangeFilter>)
    ensures r.Some? <==> k in Keys(f)
    ensures r.Some? ==> (k, r.value) in f
  {
    if f == [] then None
    else if f[0].0 == k then Some(f[0].1)
    else
      assert Keys(f) == [f[0].0] + Keys(f[1..]);
      Lookup(f[1..], k)
  }

  /** `featured[k] = v`: an existing key keeps its position, a new one is appended. */
  function Put(f: Featured, k: string, v: RangeFilter): (r: Featured)
  {
    if k in Keys(f) then Replace(f, k, v) else f + [(k, v)]
  }

  /** Every entry of `k` given the value `v`, in place. */
  function Replace(f: Featured, k: string, v: RangeFilter): (r: Featured)
    ensures Keys(r) == Keys(f)
  {
    if f == [] then []
    else [if f[0].0 == k then (k, v) else f[0]] + Replace(f[1..], k, v)
  }

  /** `delete featured[k]`. */
  function Delete(f: Featured, k: string): (r: Featured)
    ensures |r| <= |f|
  {
    if f == [] then []
    else if f[0].0 == k then Delete(f[1..], k)
    else [f[0]] + Delete(f[1..], k)
  }

  /** `list.filter(c => c !== x)`. */
  function Without(s: seq<string>, x: string): (r: seq<string>)
    ensures forall y :: y in r <==> y in s && y != x
  {
    if s == [] then []
    else if s[0] == x then Without(s[1..], x)
    else [s[0]] + Without(s[1..], x)
  }

  /** `if (!list.includes(x)) list.push(x)`. */
  function AddOnce(s: seq<string>, x: string): (r: seq<string>)
    ensures forall y :: y in r <==> y in s || y == x
  {
    if x in s then s else s + [x]
  }

  /** `AddOnce` of every element of `ks`, first to last. */
  function AddAll(s: seq<string>, ks: seq<string>): (r: seq<string>)
    ensures forall y :: y in r <==> y in s || y in ks
  {
    if ks == [] then s else AddOnce(AddAll(s, ks[..|ks| - 1]), ks[|ks| - 1])
  }

  lemma {:induction false} WithoutDistinct(s: seq<string>, x: string)
    requires Distinct(s)
    ensures Distinct(Without(s, x))
    decreases |s|
  {
    if s != [] {
      WithoutDistinct(s[1..], x);
      var rest := Without(s[1..], x);
      assert s[0] !in s[1..];
      assert forall j :: 0 <= j < |rest| ==> rest[j] in s[1..];
    }
  }

  lemma AddOnceDistinct(s: seq<string>, x: string)
    requires Distinct(s)
    ensures Distinct(AddOnce(s, x))
  {
  }

  lemma {:induction false} AddAllDistinct(s: seq<string>, ks: seq<string>)
    requires Distinct(s)
    ensures Distinct(AddAll(s, ks))
    decreases |ks|
  {
    if ks != [] {
      AddAllDistinct(s, ks[..|ks| - 1]);
    }
  }

  /** Appending keeps what was there, in place. */
  lemma {:induction false} AddAllExtends(s: seq<string>, ks: seq<string>)
    ensures s <= AddAll(s, ks)
    decreases |ks|
  {
    if ks != [] {
      AddAllExtends(s, ks[..|ks| - 1]);
    }
  }

  lemma {:induction false} KeysDelete(f: Featured, k: string)
    ensures Keys(Delete(f, k)) == Without(Keys(f), k)
    decreases |f|
  {
    if f != [] {
      KeysDelete(f[1..], k);
      assert Keys(f) == [f[0].0] + Keys(f[1..]);
    }
  }

  lemma KeysPut(f: Featured, k: string, v: RangeFilter)
    ensures Keys(Put(f, k, v)) == AddOnce(Keys(f), k)
  {
    if k !in Keys(f) {
      assert Keys(f + [(k, v)]) == Keys(f) + [k];
    }
  }

  predicate DistinctKeys(f: Featured) {
    Distinct(Keys(f))
  }

  lemma {:induction false} LookupDelete(f: Featured, k: string, j: string)
    ensures Lookup(Delete(f, k), j) == if j == k then None else Lookup(f, j)
    decreases |f|
  {
    KeysDelete(f, k);
    if f != [] {
      LookupDelete(f[1..], k, j);
    }
  }

  lemma LookupPut(f: Featured, k: string, v: RangeFilter, j: string)
    requires DistinctKeys(f)
    ensures Lookup(Put(f, k, v), j) == if j == k then Some(v) else Lookup(f, j)
  {
    if k in Keys(f) {
      LookupReplace(f, k, v, j);
    } else {
      LookupAppend(f, (k, v), j);
    }
  }

  lemma {:induction false} LookupReplace(f: Featured, k: string, v: RangeFilter, j: string)
    ensures Lookup(Replace(f, k, v), j) ==
      if j != k then Lookup(f, j) else if k in Keys(f) then Some(v) else None
    decreases |f|
  {
    if f != [] {
      assert Keys(f) == [f[0].0] + Keys(f[1..]);
      LookupReplace(f[1..], k, v, j);
    }
  }

  lemma {:induction false} LookupAppend(f: Featured, e: (string, RangeFilter), j: string)
    requires e.0 !in Keys(f)
    ensures Lookup(f + [e], j) == if j == e.0 then Some(e.1) else Lookup(f, j)
    decreases |f|
  {
    if f == [] {
    } else {
      assert Keys(f) == [f[0].0] + Keys(f[1..]);
      assert (f + [e])[1..] == f[1..] + [e];
      LookupAppend(f[1..], e, j);
    }
  }

  /**
   * The controller's column configuration: the columns it defines and the
   * three places their keys can be in.
   */
  datatype ColumnState = ColumnState(columns: seq<Column>, hidden: seq<string>, shown: seq<string>,
                                     featured: Featured)

  /** Every column of the table sits in exactly one of the three places, once. */
  ghost predicate Partitioned(st: ColumnState) {
    && Distinct(st.hidden) && Distinct(st.shown) && DistinctKeys(st.featured)
    && (forall k :: k in ColumnKeys(st.columns) <==>
          k in st.hidden || k in st.shown || k in Keys(st.featured))
    && (forall k :: k in st.hidden ==> k !in st.shown && k !in Keys(st.featured))
    && (forall k :: k in st.shown ==> k !in Keys(st.featured))
  }

  /** No saved state: every column shown, none hidden, none featured. */
  function DefaultState(columns: seq<Column>): (st: ColumnState)
    ensures st.columns == columns && st.shown == ColumnKeys(columns) && st.hidden == [] && st.featured == []
  {
    ColumnState(columns, [], ColumnKeys(columns), [])
  }

  lemma DefaultPartitioned(columns: seq<Column>)
    requires Distinct(ColumnKeys(columns))
    ensures Partitioned(DefaultState(columns))
  {
  }

  /** The shape of the persisted JSON; a missing or null member is `None`. */
  datatype Persisted = Persisted(hidden: Option<seq<string>>, shown: Option<seq<string>>,
                                 featured: Option<Featured>)

  function RepairEntry(e: (string, RangeFilter)): (string, RangeFilter) {
    (e.0, e.1.(mode := EffectiveMode(e.1.mode)))
  }

  /** Every entry with a missing mode given the mode `'filter'`. */
  function RepairModes(f: Featured): (r: Featured)
    ensures |r| == |f| && Keys(r) == Keys(f)
    ensures forall i :: 0 <= i < |f| ==> r[i].1.mode != ""
    ensures forall i :: 0 <= i < |f| ==>
      r[i].1.min == f[i].1.min && r[i].1.max == f[i].1.max && r[i].1.mode == EffectiveMode(f[i].1.mode)
  {
    var r := seq(|f|, i requires 0 <= i < |f| => RepairEntry(f[i]));
    assert Keys(r) == Keys(f);
    r
  }

  /** `loadState`: the saved configuration with its gaps filled, or the default. */
  function LoadState(columns: seq<Column>, saved: Option<Persisted>): (st: ColumnState)
    ensures st.columns == columns
    ensures saved.None? ==> st == DefaultState(columns)
    ensures saved.Some? ==>
      && st.hidden == saved.value.hidden.GetOr([])
      && st.shown == saved.value.shown.GetOr([])
      && Keys(st.featured) == Keys(saved.value.featured.GetOr([]))
    ensures forall i :: 0 <= i < |st.featured| ==> st.featured[i].1.mode != ""
  {
    match saved
    case None => DefaultState(columns)
    case Some(p) => ColumnState(columns, p.hidden.GetOr([]), p.shown.GetOr([]), RepairModes(p.featured.GetOr([])))
  }

  /** `saveState`: the three collections as they are. */
  function SaveState(st: ColumnState): (p: Persisted)
    ensures p.hidden.Some? && p.shown.Some? && p.featured.Some?
  {
    Persisted(Some(st.hidden), Some(st.shown), Some(st.featured))
  }

  predicate ModesSet(f: Featured) {
    forall i :: 0 <= i < |f| ==> f[i].1.mode != ""
  }

  /** Restoring what was saved gives back the configuration, once every mode is set. */
  lemma LoadSaveRoundTrip(st: ColumnState)
    requires ModesSet(st.featured)
    ensures LoadState(st.columns, Some(SaveState(st))) == st
  {
    var r := RepairModes(st.featured);
    assert forall i :: 0 <= i < |r| ==> r[i] == st.featured[i];
  }

  /** Restoring twice changes nothing more than restoring once. */
  lemma LoadIdempotent(columns: seq<Column>, saved: Option<Persisted>)
    ensures LoadState(columns, Some(SaveState(LoadState(columns, saved)))) == LoadState(columns, saved)
  {
    LoadSaveRoundTrip(LoadState(columns, saved));
  }

  /** `updateSlider` on one range: the handle moves and drags the other along if it crosses it. */
  function SetHandle(f: RangeFilter, handle: string, value: int): (r: RangeFilter)
    ensures r.mode == f.mode && r.min <= r.max
    ensures handle == "min" ==> r.min == value && r.max == (if value > f.max then value else f.max)
    ensures handle != "min" ==> r.max == value && r.min == (if value < f.min then value else f.min)
  {
    if handle == "min" then
      f.(min := value, max := if value > f.max then value else f.max)
    else
      f.(max := value, min := if value < f.min then value else f.min)
  }

  /** A move that did not cross the other handle leaves it where it was. */
  lemma SetHandleKeepsOther(f: RangeFilter, handle: string, value: int)
    requires f.min <= value <= f.max
    ensures SetHandle(f, handle, value) ==
      if handle == "min" then f.(min := value) else f.(max := value)
  {
  }

  /** `currentMode === 'filter' ? 'elimination' : 'filter'` on `mode || 'filter'`. */
  function FlipMode(mode: string): (m: string)
    ensures EffectiveMode(mode) == "filter" ==> m == "elimination"
    ensures EffectiveMode(mode) != "filter" ==> m == "filter"
  {
    if EffectiveMode(mode) == "filter" then "elimination" else "filter"
  }

  /** Toggling twice restores the effective mode of a filter or elimination column. */
  lemma FlipModeTwice(mode: string)
    requires EffectiveMode(mode) == "filter" || EffectiveMode(mode) == "elimination"
    ensures EffectiveMode(FlipMode(FlipMode(mode))) == EffectiveMode(mode)
  {
  }

  /** The range a newly featured column starts with. */
  const FullRange: RangeFilter := RangeFilter(0, 100, "filter")

  function MoveToShown(st: ColumnState, c: string): (r: ColumnState) {
    st.(hidden := Without(st.hidden, c), shown := AddOnce(st.shown, c), featured := Delete(st.featured, c))
  }

  function MoveToFeatured(st: ColumnState, c: string): (r: ColumnState) {
    st.(shown := Without(st.shown, c), featured := Put(st.featured, c, FullRange))
  }

  function MoveToHidden(st: ColumnState, c: string): (r: ColumnState) {
    st.(hidden := AddOnce(st.hidden, c), shown := Without(st.shown, c), featured := Delete(st.featured, c))
  }

  function RemoveFilter(st: ColumnState, c: string): (r: ColumnState) {
    st.(shown := AddOnce(st.shown, c), featured := Delete(st.featured, c))
  }

  function ClearAllFilters(st: ColumnState): (r: ColumnState) {
    st.(shown := AddAll(st.shown, Keys(st.featured)), featured := [])
  }

  function ToggleMode(st: ColumnState, c: string): (r: ColumnState)
    requires c in Keys(st.featured)
  {
    var f := Lookup(st.featured, c).value;
    st.(featured := Put(st.featured, c, f.(mode := FlipMode(f.mode))))
  }

  function UpdateSlider(st: ColumnState, c: string, handle: string, value: int): (r: ColumnState)
    requires c in Keys(st.featured)
  {
    st.(featured := Put(st.featured, c, SetHandle(Lookup(st.featured, c).value, handle, value)))
  }

  /** `moveToShown`: the key ends up shown once, and neither hidden nor featured. */
  lemma MoveToShownEffect(st: ColumnState, c: string)
    ensures var r := MoveToShown(st, c);
      && c in r.shown && c !in r.hidden && c !in Keys(r.featured)
      && (forall k :: k != c ==>
            && (k in r.hidden <==> k in st.hidden)
            && (k in r.shown <==> k in st.shown)
            && Lookup(r.featured, k) == Lookup(st.featured, k))
      && (Distinct(st.shown) ==> Distinct(r.shown))
  {
    KeysDelete(st.featured, c);
    forall k | k != c ensures Lookup(MoveToShown(st, c).featured, k) == Lookup(st.featured, k) {
      LookupDelete(st.featured, c, k);
    }
  }

  /** `moveToFeatured`: full-range filter entry, no longer shown; hidden untouched. */
  lemma MoveToFeaturedEffect(st: ColumnState, c: string)
    requires DistinctKeys(st.featured)
    ensures var r := MoveToFeatured(st, c);
      && Lookup(r.featured, c) == Some(FullRange) && c !in r.shown
      && r.hidden == st.hidden
      && (forall k :: k != c ==>
            && (k in r.shown <==> k in st.shown)
            && Lookup(r.featured, k) == Lookup(st.featured, k))
  {
    forall k ensures Lookup(MoveToFeatured(st, c).featured, k) ==
        if k == c then Some(FullRange) else Lookup(st.featured, k) {
      LookupPut(st.featured, c, FullRange, k);
    }
  }

  /** `moveToHidden`: the key ends up hidden once, and neither shown nor featured. */
  lemma MoveToHiddenEffect(st: ColumnState, c: string)
    ensures var r := MoveToHidden(st, c);
      && c in r.hidden && c !in r.shown && c !in Keys(r.featured)
      && (forall k :: k != c ==>
            && (k in r.hidden <==> k in st.hidden)
            && (k in r.shown <==> k in st.shown)
            && Lookup(r.featured, k) == Lookup(st.featured, k))
      && (Distinct(st.hidden) ==> Distinct(r.hidden))
  {
    KeysDelete(st.featured, c);
    forall k | k != c ensures Lookup(MoveToHidden(st, c).featured, k) == Lookup(st.featured, k) {
      LookupDelete(st.featured, c, k);
    }
  }

  /** `removeFilter`: the filter is dropped and the key is shown; hidden untouched. */
  lemma RemoveFilterEffect(st: ColumnState, c: string)
    ensures var r := RemoveFilter(st, c);
      && c in r.shown && c !in Keys(r.featured) && r.hidden == st.hidden
      && st.shown <= r.shown
      && (forall k :: k != c ==>
            && (k in r.shown <==> k in st.shown)
            && Lookup(r.featured, k) == Lookup(st.featured, k))
  {
    KeysDelete(st.featured, c);
    forall k | k != c ensures Lookup(RemoveFilter(st, c).featured, k) == Lookup(st.featured, k) {
      LookupDelete(st.featured, c, k);
    }
  }

  /** `clearAllFilters`: no filter left, each formerly featured key shown once, hidden untouched. */
  lemma ClearAllFiltersEffect(st: ColumnState)
    ensures var r := ClearAllFilters(st);
      && r.featured == [] && r.hidden == st.hidden
      && st.shown <= r.shown
      && (forall k :: k in r.shown <==> k in st.shown || k in Keys(st.featured))
      && (Distinct(st.shown) ==> Distinct(r.shown))
  {
    AddAllExtends(st.shown, Keys(st.featured));
    if Distinct(st.shown) {
      AddAllDistinct(st.shown, Keys(st.featured));
    }
  }

  /** `toggleMode` changes only the mode of that one entry. */
  lemma ToggleModeEffect(st: ColumnState, c: string)
    requires DistinctKeys(st.featured) && c in Keys(st.featured)
    ensures var r := ToggleMode(st, c);
      var f := Lookup(st.featured, c).value;
      && Lookup(r.featured, c) == Some(f.(mode := FlipMode(f.mode)))
      && Keys(r.featured) == Keys(st.featured)
      && r.hidden == st.hidden && r.shown == st.shown
      && (forall k :: k != c ==> Lookup(r.featured, k) == Lookup(st.featured, k))
  {
    var f := Lookup(st.featured, c).value;
    KeysPut(st.featured, c, f.(mode := FlipMode(f.mode)));
    forall k ensures Lookup(ToggleMode(st, c).featured, k) ==
        if k == c then Some(f.(mode := FlipMode(f.mode))) else Lookup(st.featured, k) {
      LookupPut(st.featured, c, f.(mode := FlipMode(f.mode)), k);
    }
  }

  /** Toggling a filter or elimination column twice gives back its effective mode. */
  lemma ToggleModeTwice(st: ColumnState, c: string)
    requires DistinctKeys(st.featured) && c in Keys(st.featured)
    requires var m := EffectiveMode(Lookup(st.featured, c).value.mode);
      m == "filter" || m == "elimination"
    ensures c in Keys(ToggleMode(st, c).featured)
    ensures var f := Lookup(st.featured, c).value;
      var g := Lookup(ToggleMode(ToggleMode(st, c), c).featured, c).value;
      g.min == f.min && g.max == f.max && EffectiveMode(g.mode) == EffectiveMode(f.mode)
  {
    ToggleModeEffect(st, c);
    var once := ToggleMode(st, c);
    KeysPut(st.featured, c, Lookup(once.featured, c).value);
    assert DistinctKeys(once.featured);
    ToggleModeEffect(once, c);
    FlipModeTwice(Lookup(st.featured, c).value.mode);
  }

  /** `updateSlider` changes only the range of that one entry, keeping min <= max. */
  lemma UpdateSliderEffect(st: ColumnState, c: string, handle: string, value: int)
    requires DistinctKeys(st.featured) && c in Keys(st.featured)
    ensures var r := UpdateSlider(st, c, handle, value);
      var g := Lookup(r.featured, c);
      && g == Some(SetHandle(Lookup(st.featured, c).value, handle, value))
      && g.value.min <= g.value.max
      && Keys(r.featured) == Keys(st.featured)
      && r.hidden == st.hidden && r.shown == st.shown
      && (forall k :: k != c ==> Lookup(r.featured, k) == Lookup(st.featured, k))
  {
    var g := SetHandle(Lookup(st.featured, c).value, handle, value);
    KeysPut(st.featured, c, g);
    forall k ensures Lookup(UpdateSlider(st, c, handle, value).featured, k) ==
        if k == c then Some(g) else Lookup(st.featured, k) {
      LookupPut(st.featured, c, g, k);
    }
  }

  lemma MoveToShownPartitioned(st: ColumnState, c: string)
    requires Partitioned(st) && c in ColumnKeys(st.columns)
    ensures Partitioned(MoveToShown(st, c))
  {
    KeysDelete(st.featured, c);
    WithoutDistinct(st.hidden, c);
    WithoutDistinct(Keys(st.featured), c);
  }

  lemma MoveToHiddenPartitioned(st: ColumnState, c: string)
    requires Partitioned(st) && c in ColumnKeys(st.columns)
    ensures Partitioned(MoveToHidden(st, c))
  {
    KeysDelete(st.featured, c);
    WithoutDistinct(st.shown, c);
    WithoutDistinct(Keys(st.featured), c);
  }

  /** Featuring a column that is not hidden keeps the partition. */
  lemma MoveToFeaturedPartitioned(st: ColumnState, c: string)
    requires Partitioned(st) && c in ColumnKeys(st.columns) && c !in st.hidden
    ensures Partitioned(MoveToFeatured(st, c))
  {
    var r := MoveToFeatured(st, c);
    KeysPut(st.featured, c, FullRange);
    WithoutDistinct(st.shown, c);
    AddOnceDistinct(Keys(st.featured), c);
    assert forall k :: k in Keys(r.featured) <==> k in Keys(st.featured) || k == c;
    assert forall k :: k in r.shown <==> k in st.shown && k != c;
  }

  /** Featuring a hidden column leaves it both hidden and featured. */
  lemma MoveToFeaturedFromHidden(st: ColumnState, c: string)
    requires c in st.hidden
    ensures var r := MoveToFeatured(st, c); c in r.hidden && c in Keys(r.featured)
  {
    KeysPut(st.featured, c, FullRange);
  }

  /** Dropping the filter of a featured column keeps the partition. */
  lemma RemoveFilterPartitioned(st: ColumnState, c: string)
    requires Partitioned(st) && c in Keys(st.featured)
    ensures Partitioned(RemoveFilter(st, c))
  {
    KeysDelete(st.featured, c);
    WithoutDistinct(Keys(st.featured), c);
  }

  lemma ClearAllFiltersPartitioned(st: ColumnState)
    requires Partitioned(st)
    ensures Partitioned(ClearAllFilters(st))
  {
    AddAllDistinct(st.shown, Keys(st.featured));
  }

  lemma ToggleModePartitioned(st: ColumnState, c: string)
    requires Partitioned(st) && c in Keys(st.featured)
    ensures Partitioned(ToggleMode(st, c))
  {
    ToggleModeEffect(st, c);
  }

  lemma UpdateSliderPartitioned(st: ColumnState, c: string, handle: string, value: int)
    requires Partitioned(st) && c in Keys(st.featured)
    ensures Partitioned(UpdateSlider(st, c, handle, value))
  {
    UpdateSliderEffect(st, c, handle, value);
  }

  // ------------------------------------------------------------ ordered ranges

  /** Every featured entry has its lower handle at or below its upper handle. */
  predicate RangesOrdered(f: Featured) {
    forall e :: e in f ==> e.1.min <= e.1.max
  }

  lemma {:induction false} DeleteEntries(f: Featured, k: string)
    ensures forall e :: e in Delete(f, k) ==> e in f
    decreases |f|
  {
    if f != [] {
      DeleteEntries(f[1..], k);
    }
  }

  lemma {:induction false} ReplaceEntries(f: Featured, k: string, v: RangeFilter)
    ensures forall e :: e in Replace(f, k, v) ==> e in f || e == (k, v)
    decreases |f|
  {
    if f != [] {
      ReplaceEntries(f[1..], k, v);
    }
  }

  /** `featured[k] = v` on ordered ranges with an ordered `v` keeps them ordered. */
  lemma PutOrdered(f: Featured, k: string, v: RangeFilter)
    requires RangesOrdered(f) && v.min <= v.max
    ensures RangesOrdered(Put(f, k, v))
  {
    ReplaceEntries(f, k, v);
  }

  lemma MoveToShownOrdered(st: ColumnState, c: string)
    requires RangesOrdered(st.featured)
    ensures RangesOrdered(MoveToShown(st, c).featured)
  {
    DeleteEntries(st.featured, c);
  }

  lemma MoveToFeaturedOrdered(st: ColumnState, c: string)
    requires RangesOrdered(st.featured)
    ensures RangesOrdered(MoveToFeatured(st, c).featured)
  {
    PutOrdered(st.featured, c, FullRange);
  }

  lemma MoveToHiddenOrdered(st: ColumnState, c: string)
    requires RangesOrdered(st.featured)
    ensures RangesOrdered(MoveToHidden(st, c).featured)
  {
    DeleteEntries(st.featured, c);
  }

  lemma RemoveFilterOrdered(st: ColumnState, c: string)
    requires RangesOrdered(st.featured)
    ensures RangesOrdered(RemoveFilter(st, c).featured)
  {
    DeleteEntries(st.featured, c);
  }

  lemma ClearAllFiltersOrdered(st: ColumnState)
    ensures RangesOrdered(ClearAllFilters(st).featured)
  {
  }

  /** Toggling a mode keeps the entry's range, so the ranges stay ordered. */
  lemma ToggleModeOrdered(st: ColumnState, c: string)
    requires RangesOrdered(st.featured) && c in Keys(st.featured)
    ensures RangesOrdered(ToggleMode(st, c).featured)
  {
    var f := Lookup(st.featured, c).value;
    assert (c, f) in st.featured;
    PutOrdered(st.featured, c, f.(mode := FlipMode(f.mode)));
  }

  /** Moving a handle drags the other along, so the ranges stay ordered. */
  lemma UpdateSliderOrdered(st: ColumnState, c: string, handle: string, value: int)
    requires RangesOrdered(st.featured) && c in Keys(st.featured)
    ensures RangesOrdered(UpdateSlider(st, c, handle, value).featured)
  {
    PutOrdered(st.featured, c, SetHandle(Lookup(st.featured, c).value, handle, value));
  }

  /**
   * `loadState` keeps the stored ranges as they are: they come back ordered
   * exactly when they were stored ordered, and the default has none.
   */
  lemma LoadStateOrdered(columns: seq<Column>, saved: Option<Persisted>)
    ensures RangesOrdered(LoadState(columns, saved).featured) <==>
      saved.None? || RangesOrdered(saved.value.featured.GetOr([]))
  {
    if saved.Some? {
      var f := saved.value.featured.GetOr([]);
      var r := LoadState(columns, saved).featured;
      if RangesOrdered(f) {
        forall e | e in r ensures e.1.min <= e.1.max {
          var i :| 0 <= i < |r| && r[i] == e;
          assert f[i] in f;
        }
      }
      if RangesOrdered(r) {
        forall e | e in f ensures e.1.min <= e.1.max {
          var i :| 0 <= i < |f| && f[i] == e;
          assert r[i] in r;
        }
      }
    }
  }
}
