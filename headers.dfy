/** The header row of the Apps table: how the script recognises the table
    (`findAppsTable`), maps the metric columns to positions
    (`headerIndexMap`), inserts its two sortable headers (`ensureHeader`,
    `cloneHeaderLike`), binds them (`wireSortHeaders`), labels them after
    the sort state (`refreshSortHeaderUi`, `setHeaderLabel`) and toggles
    that state (`onToggle`). */
module Headers {
  import opened Options
  import opened Text

  /** A `th` as far as the script looks at it: its text, the
      `data-tm-extra-cols-header` and `data-tm-sort-header` markers, the
      `data-tm-sort-key` attribute, the `aria-sort` attribute, the
      `data-tm-sort-bound` attribute (`bound`) and whether the click and key
      listeners are attached (`handlers`). `cloneNode` copies the attribute
      but not the listeners. */
  datatype Th = Th(text: string, marked: bool, sortHeader: bool, sortKey: Option<string>,
                   ariaSort: Option<string>, bound: bool, handlers: bool)

  /** The three metric columns the script reads. */
  datatype Column = Impressions | Units | Sessions

  const ConvLabel: string := "Conv (Imp\U{2192}Dl)"
  const SpuLabel: string := "Sessions/Unit"
  const Asc: string := "asc"
  const Desc: string := "desc"

  /** The trimmed, lower-cased text a header is matched on. */
  function Label(th: Th): string {
    Lower(Trim(th.text))
  }

  /** The column a header names, the first of impressions, units and
      sessions its label starts with. */
  function Classify(th: Th): (c: Option<Column>)
    ensures c == Some(Impressions) <==> StartsWith(Label(th), "impressions")
    ensures c == Some(Units) <==> !StartsWith(Label(th), "impressions") && StartsWith(Label(th), "units")
    ensures c == Some(Sessions) <==> !StartsWith(Label(th), "impressions") && !StartsWith(Label(th), "units")
                                      && StartsWith(Label(th), "sessions")
  {
    var key := Label(th);
    if StartsWith(key, "impressions") then Some(Impressions)
    else if StartsWith(key, "units") then Some(Units)
    else if StartsWith(key, "sessions") then Some(Sessions)
    else None
  }

  // ---------------------------------------------------------------------
  // findAppsTable

  predicate HasLabel(ths: seq<Th>, prefix: string) {
    exists k :: 0 <= k < |ths| && StartsWith(Label(ths[k]), prefix)
  }

  /** A table is the Apps table when some header starts with each of
      "impressions", "units" and "sessions". All headers count, injected
      ones included. */
  predicate IsAppsTable(ths: seq<Th>) {
    HasLabel(ths, "impressions") && HasLabel(ths, "units") && HasLabel(ths, "sessions")
  }

  lemma HasLabelKept(ths: seq<Th>, more: seq<Th>, prefix: string)
    requires HasLabel(ths, prefix) && multiset(ths) <= multiset(more)
    ensures HasLabel(more, prefix)
  {
    var k :| 0 <= k < |ths| && StartsWith(Label(ths[k]), prefix);
    assert ths[k] in multiset(more);
    var j :| 0 <= j < |more| && more[j] == ths[k];
  }

  /** Adding headers never makes a table stop being the Apps table. */
  lemma AppsTableKept(ths: seq<Th>, more: seq<Th>)
    requires IsAppsTable(ths) && multiset(ths) <= multiset(more)
    ensures IsAppsTable(more)
  {
    HasLabelKept(ths, more, "impressions");
    HasLabelKept(ths, more, "units");
    HasLabelKept(ths, more, "sessions");
  }

  // ---------------------------------------------------------------------
  // headerIndexMap

  /** The headers the script did not inject, in order. */
  function BaseHeaders(ths: seq<Th>): (base: seq<Th>)
    ensures |base| <= |ths|
    ensures forall k :: 0 <= k < |base| ==> !base[k].marked
  {
    if ths == [] then []
    else BaseHeaders(ths[..|ths| - 1]) + (if ths[|ths| - 1].marked then [] else [ths[|ths| - 1]])
  }

  /** The column each base header names, in order. */
  function Classes(base: seq<Th>): (cs: seq<Option<Column>>)
    ensures |cs| == |base|
    ensures forall k :: 0 <= k < |base| ==> cs[k] == Classify(base[k])
  {
    seq(|base|, k requires 0 <= k < |base| => Classify(base[k]))
  }

  /** One more header of a prefix: kept when unmarked. */
  lemma BaseHeadersSnoc(ths: seq<Th>, i: nat)
    requires i < |ths|
    ensures BaseHeaders(ths[..i + 1]) == BaseHeaders(ths[..i]) + (if ths[i].marked then [] else [ths[i]])
  {
    assert ths[..i + 1][..i] == ths[..i];
  }

  /** The map entry the header at base position `idx` sets, if any. */
  function Assign(m: map<Column, nat>, c: Option<Column>, idx: nat): map<Column, nat> {
    match c
    case None => m
    case Some(col) => m[col := idx]
  }

  /** The column map built over the classified base headers, later headers
      overwriting earlier ones. */
  function MapOf(cs: seq<Option<Column>>): map<Column, nat> {
    if cs == [] then map[]
    else Assign(MapOf(cs[..|cs| - 1]), cs[|cs| - 1], |cs| - 1)
  }

  function IndexMap(base: seq<Th>): map<Column, nat> {
    MapOf(Classes(base))
  }

  /** A column is mapped exactly when some base header names it, and then to
      the last base header that does. */
  lemma {:induction false} MapOfMeaning(cs: seq<Option<Column>>, c: Column)
    ensures c in MapOf(cs) <==> Some(c) in cs
    ensures c in MapOf(cs) ==>
      MapOf(cs)[c] < |cs| && cs[MapOf(cs)[c]] == Some(c) &&
      forall k :: MapOf(cs)[c] < k < |cs| ==> cs[k] != Some(c)
  {
    if cs != [] {
      var init := cs[..|cs| - 1];
      MapOfMeaning(init, c);
      assert cs == init + [cs[|cs| - 1]];
    }
  }

  lemma IndexMapMeaning(base: seq<Th>, c: Column)
    ensures c in IndexMap(base) <==> exists k :: 0 <= k < |base| && Classify(base[k]) == Some(c)
    ensures c in IndexMap(base) ==>
      IndexMap(base)[c] < |base| && Classify(base[IndexMap(base)[c]]) == Some(c) &&
      forall k :: IndexMap(base)[c] < k < |base| ==> Classify(base[k]) != Some(c)
  {
    MapOfMeaning(Classes(base), c);
    ClassesHas(base, c);
  }

  lemma ClassesHas(base: seq<Th>, c: Column)
    ensures Some(c) in Classes(base) <==> exists k :: 0 <= k < |base| && Classify(base[k]) == Some(c)
  {
    var cs := Classes(base);
    if Some(c) in cs {
      var k :| 0 <= k < |cs| && cs[k] == Some(c);
      assert Classify(base[k]) == Some(c);
    }
  }

  /** Scanning one more base header extends the map by that header's
      entry, at the next base position. */
  lemma IndexMapSnoc(base: seq<Th>, th: Th)
    ensures IndexMap(base + [th]) == Assign(IndexMap(base), Classify(th), |base|)
  {
    var cs := Classes(base + [th]);
    assert cs[..|cs| - 1] == Classes(base);
  }

  /** The injected "Sessions/Unit" header reads as a sessions header. */
  lemma SpuLabelIsSessions(th: Th)
    ensures StartsWith(Label(CloneHeaderLike(th, SpuLabel, "spu")), "sessions")
  {
    SpuLabelTrimmed();
    SpuLabelLower();
  }

  lemma SpuLabelTrimmed()
    ensures Trim(SpuLabel) == SpuLabel
  {
    var t := SpuLabel;
    assert t[0] == 'S' && t[|t| - 1] == 't';
    TrimOfTrimmed(t);
  }

  lemma SpuLabelLower()
    ensures Lower(SpuLabel)[..8] == "sessions"
  {
    assert SpuLabel == "Sessions" + "/Unit";
    LowerAppend("Sessions", "/Unit");
    LowerSessions();
  }

  lemma LowerSessions()
    ensures Lower("Sessions") == "sessions"
  {
    assert LowerChar('S') == 's';
    LowerNoUpper("essions");
    assert "Sessions" == ['S'] + "essions";
  }

  /** Table detection counts injected headers: a row whose page headers
      name impressions and units but not sessions is taken for the Apps
      table once it carries the injected "Sessions/Unit" header, although
      its column map lacks sessions. */
  lemma InjectedHeaderCounts(imp: Th, units: Th, th: Th)
    requires !imp.marked && !units.marked
    requires StartsWith(Label(imp), "impressions") && StartsWith(Label(units), "units")
    requires !StartsWith(Label(units), "impressions")
    ensures var row := [imp, units, CloneHeaderLike(th, SpuLabel, "spu")];
      IsAppsTable(row) && Sessions !in IndexMap(BaseHeaders(row))
  {
    var spu := CloneHeaderLike(th, SpuLabel, "spu");
    var row := [imp, units, spu];
    SpuLabelIsSessions(th);
    assert StartsWith(Label(row[0]), "impressions") && StartsWith(Label(row[1]), "units") &&
           StartsWith(Label(row[2]), "sessions");
    TwoBaseHeaders(imp, units, spu);
    NoSessionsColumn(imp, units);
  }

  lemma NoSessionsColumn(a: Th, b: Th)
    requires Classify(a) == Some(Impressions) && Classify(b) == Some(Units)
    ensures Sessions !in IndexMap([a, b])
  {
    IndexMapMeaning([a, b], Sessions);
  }

  lemma TwoBaseHeaders(a: Th, b: Th, injected: Th)
    requires !a.marked && !b.marked && injected.marked
    ensures BaseHeaders([a, b, injected]) == [a, b]
  {
    MarkedHeadersIgnored([a, b], injected);
    assert [a, b] + [injected] == [a, b, injected];
    assert [a, b][..1] == [a] && [a][..0] == [];
  }

  /** Marked headers are skipped: appending one marked header leaves the
      base headers, and so the column map, as they were. */
  lemma {:induction false} MarkedHeadersIgnored(ths: seq<Th>, extra: Th)
    requires extra.marked
    ensures BaseHeaders(ths + [extra]) == BaseHeaders(ths)
  {
    assert (ths + [extra])[..|ths|] == ths;
  }

  lemma {:induction false} BaseHeadersAppend(a: seq<Th>, b: seq<Th>)
    ensures BaseHeaders(a + b) == BaseHeaders(a) + BaseHeaders(b)
    decreases |b|
  {
    if b == [] {
      assert a + b == a;
    } else {
      var b' := b[..|b| - 1];
      assert (a + b)[..|a + b| - 1] == a + b';
      assert (a + b)[|a + b| - 1] == b[|b| - 1];
      BaseHeadersAppend(a, b');
    }
  }

  /** A header row without marked headers is its own base. */
  lemma {:induction false} BaseOfUnmarked(ths: seq<Th>)
    requires !HasMarked(ths)
    ensures BaseHeaders(ths) == ths
  {
    if ths != [] {
      var init := ths[..|ths| - 1];
      assert !HasMarked(init) by {
        forall k | 0 <= k < |init| ensures !init[k].marked {
          assert init[k] == ths[k];
        }
      }
      BaseOfUnmarked(ths[..|ths| - 1]);
      assert ths == ths[..|ths| - 1] + [ths[|ths| - 1]];
    }
  }

  // ---------------------------------------------------------------------
  // ensureHeader and cloneHeaderLike

  predicate HasMarked(ths: seq<Th>) {
    exists k :: 0 <= k < |ths| && ths[k].marked
  }

  /** A sortable header made from `th`: relabelled, marked as injected and
      as a sort header with the given key, `aria-sort` "none". */
  function CloneHeaderLike(th: Th, caption: string, key: string): (h: Th)
    ensures h.marked && h.sortHeader && h.sortKey == Some(key) && h.text == caption
    ensures h.ariaSort == Some("none") && h.bound == th.bound && !h.handlers
  {
    th.(text := caption, marked := true, sortHeader := true, sortKey := Some(key), ariaSort := Some("none"),
        handlers := false)
  }

  /** Where the two headers go: right after the units header when there is
      one at that position, otherwise after the last header. */
  function Anchor(ths: seq<Th>, idxUnits: nat): (a: nat)
    requires ths != []
    ensures a < |ths|
    ensures a == idxUnits || (idxUnits >= |ths| && a == |ths| - 1)
  {
    if idxUnits < |ths| then idxUnits else |ths| - 1
  }

  /** The header row after `ensureHeader`: unchanged when it already holds
      a marked header or has no header at all, otherwise with conv then spu
      cloned from the units header (or the last) inserted after the anchor. */
  function InsertHeaders(ths: seq<Th>, idxUnits: nat): seq<Th> {
    if HasMarked(ths) || ths == [] then ths
    else
      var a := Anchor(ths, idxUnits);
      var template := ths[a];
      ths[..a + 1] + [CloneHeaderLike(template, ConvLabel, "conv"), CloneHeaderLike(template, SpuLabel, "spu")]
        + ths[a + 1..]
  }

  /** What `ensureHeader` does to a row: either nothing, or exactly the two
      new headers right after the units header, everything else in place. */
  lemma InsertHeadersShape(ths: seq<Th>, idxUnits: nat)
    ensures var r := InsertHeaders(ths, idxUnits);
      if HasMarked(ths) || ths == [] then r == ths
      else
        var a := Anchor(ths, idxUnits);
        |r| == |ths| + 2 && r[..a + 1] == ths[..a + 1] && r[a + 3..] == ths[a + 1..] &&
        r[a + 1].marked && r[a + 1].sortKey == Some("conv") && r[a + 1].text == ConvLabel &&
        r[a + 2].marked && r[a + 2].sortKey == Some("spu") && r[a + 2].text == SpuLabel
  {
  }

  /** A second `ensureHeader` does nothing. */
  lemma InsertHeadersIdempotent(ths: seq<Th>, idxUnits: nat, idx2: nat)
    ensures HasMarked(InsertHeaders(ths, idxUnits)) || InsertHeaders(ths, idxUnits) == []
    ensures InsertHeaders(InsertHeaders(ths, idxUnits), idx2) == InsertHeaders(ths, idxUnits)
  {
    if !HasMarked(ths) && ths != [] {
      var a := Anchor(ths, idxUnits);
      assert InsertHeaders(ths, idxUnits)[a + 1].marked;
    }
  }

  lemma BaseOfMarkedPair(a: Th, b: Th)
    requires a.marked && b.marked
    ensures BaseHeaders([a, b]) == []
  {
    assert [a, b][..1] == [a];
    assert [a][..0] == [];
  }

  /** The injected headers do not disturb the column map. */
  lemma InsertHeadersKeepBase(ths: seq<Th>, idxUnits: nat)
    ensures BaseHeaders(InsertHeaders(ths, idxUnits)) == BaseHeaders(ths)
  {
    if !HasMarked(ths) && ths != [] {
      var a := Anchor(ths, idxUnits);
      var t := ths[a];
      var conv := CloneHeaderLike(t, ConvLabel, "conv");
      var spu := CloneHeaderLike(t, SpuLabel, "spu");
      var pre, post := ths[..a + 1], ths[a + 1..];
      assert InsertHeaders(ths, idxUnits) == pre + ([conv, spu] + post);
      BaseAroundMarkedPair(pre, conv, spu, post);
      assert BaseHeaders(ths) == BaseHeaders(pre) + BaseHeaders(post) by {
        BaseHeadersAppend(pre, post);
        assert pre + post == ths;
      }
    }
  }

  /** Two marked headers between two runs of headers add no base header. */
  lemma BaseAroundMarkedPair(pre: seq<Th>, x: Th, y: Th, post: seq<Th>)
    requires x.marked && y.marked
    ensures BaseHeaders(pre + ([x, y] + post)) == BaseHeaders(pre) + BaseHeaders(post)
  {
    BaseHeadersAppend(pre, [x, y] + post);
    BaseHeadersAppend([x, y], post);
    BaseOfMarkedPair(x, y);
  }

  // ---------------------------------------------------------------------
  // Sort state, toggling and the header refresh

  /** Whether a sort state orders the rows: a key and a valid direction. */
  predicate ActiveSort(key: string, dir: string) {
    key != "" && (dir == Asc || dir == Desc)
  }

  /** `onToggle`'s next direction for header key `k`. */
  function NextDir(key: string, dir: string, k: string): (d: string)
    ensures d == Desc <==> key == k && dir == Asc
    ensures d == Asc || d == Desc
  {
    if key == k && dir == Asc then Desc else Asc
  }

  /** Toggling a header sorts by it ascending, unless it was already the
      ascending key, and never leaves the table unsorted. */
  lemma ToggleTransitions(key: string, dir: string, k: string)
    requires k != ""
    ensures ActiveSort(k, NextDir(key, dir, k))
    ensures key == k && dir == Asc ==> NextDir(key, dir, k) == Desc
    ensures key == k && dir == Desc ==> NextDir(key, dir, k) == Asc
    ensures key != k ==> NextDir(key, dir, k) == Asc
    ensures NextDir(k, NextDir(k, NextDir(key, dir, k), k), k) == NextDir(key, dir, k)
  {
  }

  /** The arrow `setHeaderLabel` appends for a direction. */
  function Suffix(dir: Option<string>): string {
    if dir == Some(Asc) then " \U{25B2}" else if dir == Some(Desc) then " \U{25BC}" else ""
  }

  /** Whether header `th` shows the active sort. */
  predicate IsActive(th: Th, key: string, dir: string) {
    th.sortKey == Some(key) && (dir == Asc || dir == Desc)
  }

  /** The label a sort header is given for its key: the conversion label
      for "conv" and the sessions-per-unit label for any other key. */
  function BaseLabel(sortKey: Option<string>): string {
    if sortKey == Some("conv") then ConvLabel else SpuLabel
  }

  /** One sort header after the refresh: its base label, with the arrow
      and the matching `aria-sort` when it is the active one. Other headers
      are not touched. */
  function RefreshHeader(th: Th, key: string, dir: string): Th {
    if !th.sortHeader then th
    else
      var base := BaseLabel(th.sortKey);
      var active := IsActive(th, key, dir);
      th.(text := base + Suffix(if active then Some(dir) else None),
          ariaSort := Some(if active then (if dir == Asc then "ascending" else "descending") else "none"))
  }

  function Refresh(ths: seq<Th>, key: string, dir: string): (r: seq<Th>)
    ensures |r| == |ths|
    ensures forall k :: 0 <= k < |ths| ==> r[k] == RefreshHeader(ths[k], key, dir)
  {
    seq(|ths|, k requires 0 <= k < |ths| => RefreshHeader(ths[k], key, dir))
  }

  /** The text ends with one of the two arrows. */
  predicate ShowsArrow(text: string) {
    |text| >= 2 && (text[|text| - 2..] == " \U{25B2}" || text[|text| - 2..] == " \U{25BC}")
  }

  lemma LabelsHaveNoArrow()
    ensures !ShowsArrow(ConvLabel) && !ShowsArrow(SpuLabel)
  {
    assert ConvLabel[|ConvLabel| - 1] == ')';
    assert SpuLabel[|SpuLabel| - 1] == 't';
  }

  /** After a refresh a sort header shows an arrow, and `aria-sort` other
      than "none", exactly when its key is the active key and the direction
      is valid. The text is the base label of the header's key, followed by
      " ▲" when ascending and " ▼" when descending; an inactive header shows
      the bare label. */
  lemma RefreshMeaning(th: Th, key: string, dir: string)
    requires th.sortHeader
    ensures var r := RefreshHeader(th, key, dir);
      !IsActive(th, key, dir) ==> r.text == BaseLabel(th.sortKey)
    ensures var r := RefreshHeader(th, key, dir);
      IsActive(th, key, dir) && dir == Asc ==> r.text == BaseLabel(th.sortKey) + " \U{25B2}"
    ensures var r := RefreshHeader(th, key, dir);
      IsActive(th, key, dir) && dir == Desc ==> r.text == BaseLabel(th.sortKey) + " \U{25BC}"
    ensures th.sortKey == Some("conv") ==> BaseLabel(th.sortKey) == ConvLabel
    ensures th.sortKey != Some("conv") ==> BaseLabel(th.sortKey) == SpuLabel
    ensures var r := RefreshHeader(th, key, dir);
      (ShowsArrow(r.text) <==> IsActive(th, key, dir)) &&
      (r.ariaSort == Some("none") <==> !IsActive(th, key, dir)) &&
      (r.ariaSort == Some("ascending") <==> IsActive(th, key, dir) && dir == Asc) &&
      (r.ariaSort == Some("descending") <==> IsActive(th, key, dir) && dir == Desc)
  {
    var base := BaseLabel(th.sortKey);
    LabelsHaveNoArrow();
    if IsActive(th, key, dir) {
      var t := RefreshHeader(th, key, dir).text;
      assert t == base + Suffix(Some(dir));
      assert t[|t| - 2..] == Suffix(Some(dir));
    } else {
      assert RefreshHeader(th, key, dir).text == base;
    }
  }

  /** The refresh depends only on the sort state: refreshing again, after
      any earlier refresh, gives the same headers as refreshing once. */
  lemma RefreshOverwrites(ths: seq<Th>, key0: string, dir0: string, key: string, dir: string)
    ensures Refresh(Refresh(ths, key0, dir0), key, dir) == Refresh(ths, key, dir)
  {
  }

  /** The refresh leaves the injected markers, the keys and the bindings,
      and every header that is not a sort header, as they were. */
  lemma RefreshKeeps(ths: seq<Th>, key: string, dir: string, k: nat)
    requires k < |ths|
    ensures var r := Refresh(ths, key, dir)[k];
      r.marked == ths[k].marked && r.sortHeader == ths[k].sortHeader &&
      r.sortKey == ths[k].sortKey && r.bound == ths[k].bound && r.handlers == ths[k].handlers &&
      (!ths[k].sortHeader ==> r == ths[k])
  {
  }

  // ---------------------------------------------------------------------
  // wireSortHeaders

  /** One header after `wireSortHeaders`: a sort header without the bound
      attribute gets it and the listeners; any other header is skipped. */
  function WireHeader(th: Th): Th {
    if th.sortHeader && !th.bound then th.(bound := true, handlers := true) else th
  }

  function Wire(ths: seq<Th>): (r: seq<Th>)
    ensures |r| == |ths|
    ensures forall k :: 0 <= k < |ths| ==> r[k] == WireHeader(ths[k])
  {
    seq(|ths|, k requires 0 <= k < |ths| => WireHeader(ths[k]))
  }

  /** After the binding every sort header carries the bound attribute; a
      header has listeners exactly when it had them or was a sort header
      without the attribute; nothing else about any header changes. */
  lemma WireMeaning(ths: seq<Th>, k: nat)
    requires k < |ths|
    ensures Wire(ths)[k].bound <==> ths[k].bound || ths[k].sortHeader
    ensures Wire(ths)[k].handlers <==> ths[k].handlers || (ths[k].sortHeader && !ths[k].bound)
    ensures Wire(ths)[k].(bound := ths[k].bound, handlers := ths[k].handlers) == ths[k]
  {
  }

  /** A header cloned from a template that carries the bound attribute
      copies the attribute but not the listeners, so the binding skips it
      and it never gets listeners; from a template without it, the binding
      attaches them. */
  lemma CloneBinding(th: Th, caption: string, key: string)
    ensures var h := CloneHeaderLike(th, caption, key);
      th.bound ==> Wire([h]) == [h] && !Wire([h])[0].handlers
    ensures var h := CloneHeaderLike(th, caption, key);
      !th.bound ==> Wire([h])[0].handlers && Wire([h])[0].bound
  {
  }

  /** Wiring twice binds nothing new, and wiring and refreshing commute. */
  lemma WireIdempotent(ths: seq<Th>, key: string, dir: string)
    ensures Wire(Wire(ths)) == Wire(ths)
    ensures Wire(Refresh(ths, key, dir)) == Refresh(Wire(ths), key, dir)
  {
  }

  /** Only injected headers are sort headers: true of the page's own
      headers, which never carry the script's attributes, and kept by every
      step of the script. */
  predicate SortHeadersMarked(ths: seq<Th>) {
    forall k :: 0 <= k < |ths| ==> ths[k].sortHeader ==> ths[k].marked
  }

  /** Rows that agree on which headers are marked, and on every unmarked
      header, have the same base headers. */
  lemma {:induction false} SameBase(a: seq<Th>, b: seq<Th>)
    requires |a| == |b|
    requires forall k :: 0 <= k < |a| ==> a[k].marked == b[k].marked && (!a[k].marked ==> a[k] == b[k])
    ensures BaseHeaders(a) == BaseHeaders(b)
  {
    if a != [] {
      SameBase(a[..|a| - 1], b[..|b| - 1]);
    }
  }

  /** Neither the refresh nor the wiring changes the base headers. */
  lemma RefreshWireKeepBase(ths: seq<Th>, key: string, dir: string)
    requires SortHeadersMarked(ths)
    ensures BaseHeaders(Refresh(ths, key, dir)) == BaseHeaders(ths)
    ensures BaseHeaders(Wire(ths)) == BaseHeaders(ths)
    ensures SortHeadersMarked(Refresh(ths, key, dir)) && SortHeadersMarked(Wire(ths))
  {
    SameBase(Refresh(ths, key, dir), ths);
    SameBase(Wire(ths), ths);
  }
}
