/**
 The browser itself: page objects in a map by uuid, a tab bar, and the slots that change them in place. Every slot is
 proved to do to the page objects what the functions of `TabPositions` say, and to leave the bar in position order.
 */
module BrowserTabs {
  import opened Ordering
  import opened TabPositions
  import opened ZoneAllocation
  import opened TabRuns

  class BrowserPage {
    const uuid: TabId
    const preferredPos: int
    var url: string
    var logicalPos: int
    var index: int

    constructor (uuid: TabId, url: string, preferredPos: int)
      ensures this.uuid == uuid && this.url == url && this.preferredPos == preferredPos
      ensures logicalPos == -1 && index == -1
    {
      this.uuid := uuid;
      this.preferredPos := preferredPos;
      this.url := url;
      this.logicalPos := -1;
      this.index := -1;
    }

    ghost function State(): Tab
      reads this
    {
      Tab(url, preferredPos, logicalPos)
    }
  }

  /** The answer of an allocation: its two results, and the one way out of the source's defined behaviour. */
  datatype Outcome = Done | Failed | BeyondCandidates

  /** The result codes of a command, with `Undefined` for a command that reads past the candidate list. */
  datatype ResultCode = OK | TabNotFound | ExecError | Undefined

  /** `QTabBar::moveTab`: take the tab at `from` out and put it back in at `to`. */
  function MoveTab<T>(bar: seq<T>, from: nat, to: nat): seq<T>
    requires from < |bar| && to < |bar|
  {
    var rest := bar[..from] + bar[from + 1..];
    rest[..to] + [bar[from]] + rest[to..]
  }

  // ---------- what the slots are built from ----------

  lemma RemovedElements<T>(s: seq<T>, at: nat)
    requires Distinct(s) && at < |s|
    ensures Distinct(s[..at] + s[at + 1..])
    ensures Elements(s[..at] + s[at + 1..]) == Elements(s) - {s[at]}
  {
    var rest := s[..at] + s[at + 1..];
    forall x | x in s && x != s[at] ensures x in rest {
      var k :| 0 <= k < |s| && s[k] == x;
      assert rest[if k < at then k else k - 1] == x;
    }
  }

  lemma NewTabApart(tabs: Tabs, id: TabId, url: string, pref: int)
    requires Inv(tabs) && id !in tabs
    ensures NoSharedPosition(tabs[id := Tab(url, pref, -1)])
  {
    assert forall k :: k in tabs ==> WellPlaced(tabs[k]);
  }

  /** The comparison of `pagesInDisplayOrder`: by position, then by uuid. */
  predicate PagePositionLess(left: BrowserPage, right: BrowserPage)
    reads left, right
  {
    if left.logicalPos != right.logicalPos then left.logicalPos < right.logicalPos
    else StringLess(left.uuid, right.uuid)
  }

  /** `QTabWidget::indexOf`, -1 if absent. */
  method IndexOf<T(==)>(bar: seq<T>, x: T) returns (i: int)
    ensures -1 <= i < |bar|
    ensures i >= 0 ==> bar[i] == x
    ensures i < 0 ==> x !in bar
  {
    i := 0;
    while i < |bar|
      invariant 0 <= i <= |bar| && x !in bar[..i]
    {
      if bar[i] == x {
        return;
      }
      i := i + 1;
    }
    i := -1;
  }

  /** Moving a later tab to the end of a settled prefix settles it too and loses nobody. */
  lemma MoveTabSettles<T>(bar: seq<T>, from: nat, to: nat)
    requires to <= from < |bar|
    ensures |MoveTab(bar, from, to)| == |bar|
    ensures MoveTab(bar, from, to)[..to + 1] == bar[..to] + [bar[from]]
    ensures Elements(MoveTab(bar, from, to)) == Elements(bar)
  {
    var moved := MoveTab(bar, from, to);
    assert moved == bar[..to] + [bar[from]] + bar[to..from] + bar[from + 1..];
    forall x | x in bar ensures x in moved {
      var k :| 0 <= k < |bar| && bar[k] == x;
      assert moved[if k < to || k > from then k else if k == from then to else k + 1] == x;
    }
  }

  predicate PageUrlLess(left: BrowserPage, right: BrowserPage)
    reads left, right
  {
    KeyLess(left.url, left.uuid, right.url, right.uuid)
  }

  lemma DealIs(tabs: Tabs, after: Tabs, group: set<TabId>, slots: seq<int>, zone: int)
    requires group <= tabs.Keys == after.Keys && |group| <= |slots|
    requires forall id :: id in tabs && id !in group ==> after[id] == tabs[id]
    requires var skip := if zone == POS_END then |slots| - |group| else 0;
             forall id :: id in group ==>
               after[id] == tabs[id].(pos := SlotAt(slots, skip + Rank(TabLess(tabs), group, id)))
    ensures after == Deal(tabs, group, slots, zone)
  {
  }

  /** A deal given turn by turn. */
  lemma DealByIndex(tabs: Tabs, after: Tabs, ids: seq<TabId>, slots: seq<int>, skip: nat, group: set<TabId>, zone: int)
    requires group <= tabs.Keys == after.Keys && |ids| == |group| && skip + |ids| <= |slots|
    requires skip == if zone == POS_END then |slots| - |group| else 0
    requires forall id :: id in group ==> id in ids
    requires forall i :: 0 <= i < |ids| ==> ids[i] in group && Rank(TabLess(tabs), group, ids[i]) == i
    requires forall i :: 0 <= i < |ids| ==> after[ids[i]] == tabs[ids[i]].(pos := slots[skip + i])
    requires forall id :: id in tabs && id !in group ==> after[id] == tabs[id]
    ensures after == Deal(tabs, group, slots, zone)
  {
    forall id | id in group
      ensures after[id] == tabs[id].(pos := SlotAt(slots, skip + Rank(TabLess(tabs), group, id)))
    {
      var i :| 0 <= i < |ids| && ids[i] == id;
      assert SlotAt(slots, skip + i) == slots[skip + i];
    }
    DealIs(tabs, after, group, slots, zone);
  }

  lemma {:induction false} AscendingSnoc(s: set<int>, lo: int, hi: int)
    requires lo <= hi
    ensures Ascending(s, lo, hi) == Ascending(s, lo, hi - 1) + (if hi in s then [hi] else [])
    decreases hi - lo
  {
    if lo < hi {
      AscendingSnoc(s, lo + 1, hi);
    } else {
      assert Ascending(s, lo + 1, hi) == [];
      assert Ascending(s, lo, hi - 1) == [];
    }
  }

  /** The second loop of `freePositionsInRange`. */
  method Unoccupied(occupied: array<bool>, start: int, end: int, ghost all: set<int>) returns (free: seq<int>)
    requires 0 <= start <= end < occupied.Length
    requires forall p :: start <= p <= end ==> (p in all <==> !occupied[p])
    ensures free == Ascending(all, start, end)
  {
    free := [];
    var pos := start;
    while pos <= end
      invariant start <= pos <= end + 1
      invariant free == Ascending(all, start, pos - 1)
    {
      AscendingSnoc(all, start, pos);
      if !occupied[pos] {
        free := free + [pos];
      }
      pos := pos + 1;
    }
  }

  method SortPositions(positions: seq<int>, ghost lo: int, ghost hi: int) returns (sorted: seq<int>)
    requires Distinct(positions) && forall p :: p in positions ==> lo <= p <= hi
    ensures sorted == Ascending(Elements(positions), lo, hi)
  {
    var less: (int, int) -> bool := (a, b) => a < b;
    sorted := Sort(positions, less);
    ghost var ascending := Ascending(Elements(positions), lo, hi);
    assert Elements(ascending) == Elements(positions);
    assert SortedBy(less, sorted) && SortedBy(less, ascending);
    SortedUnique(less, sorted, ascending);
  }

  /** Free positions are none of the pooled ones. */
  lemma FreeApart(tabs: Tabs, id: TabId, zone: int, pooled: seq<int>, free: seq<int>)
    requires id in tabs && Distinct(pooled)
    requires Elements(pooled) == (set k | k in Pooled(tabs, id, zone) && InZone(tabs[k].pos, zone) :: tabs[k].pos)
    requires free == Ascending(Free(tabs, ZoneStart(zone), ZoneEnd(zone)), ZoneStart(zone), ZoneEnd(zone))
    ensures Distinct(pooled + free)
    ensures Elements(pooled + free) == Candidates(tabs, id, zone)
    ensures forall p :: p in Candidates(tabs, id, zone) ==> InZone(p, zone)
  {
    assert forall p :: p in pooled ==> p in Elements(pooled);
    forall i, j | 0 <= i < |pooled| && 0 <= j < |free| ensures pooled[i] != free[j] {
      assert pooled[i] in Elements(pooled);
      assert Held(tabs, pooled[i]);
    }
    assert Elements(free) == Free(tabs, ZoneStart(zone), ZoneEnd(zone));
    assert Elements(pooled + free) == Elements(pooled) + Elements(free);
  }

  /** The pooled positions and the free ones, sorted: the slots to deal. */
  method SortCandidates(pooled: seq<int>, free: seq<int>, ghost tabs: Tabs, ghost id: TabId, ghost zone: int)
    returns (slots: seq<int>)
    requires id in tabs && Distinct(pooled)
    requires Elements(pooled) == (set k | k in Pooled(tabs, id, zone) && InZone(tabs[k].pos, zone) :: tabs[k].pos)
    requires free == Ascending(Free(tabs, ZoneStart(zone), ZoneEnd(zone)), ZoneStart(zone), ZoneEnd(zone))
    ensures slots == Ascending(Candidates(tabs, id, zone), ZoneStart(zone), ZoneEnd(zone))
  {
    FreeApart(tabs, id, zone, pooled, free);
    assert forall p :: p in pooled + free ==> p in Elements(pooled + free);
    slots := SortPositions(pooled + free, ZoneStart(zone), ZoneEnd(zone));
  }

  lemma CountStep<T>(counted: set<T>, todo: set<T>, x: T)
    requires x in todo
    ensures |counted * todo| == |counted * (todo - {x})| + (if x in counted then 1 else 0)
  {
    if x in counted {
      assert counted * todo == counted * (todo - {x}) + {x};
    } else {
      assert counted * todo == counted * (todo - {x});
    }
  }

  // ---------- the browser ----------

  class Browser {
    var list: map<TabId, BrowserPage>
    var bar: seq<BrowserPage>

    // ---------- what the objects stand for ----------

    /** Every page is filed under its own uuid. */
    ghost predicate Linked()
      reads this
    {
      forall id :: id in list ==> list[id].uuid == id
    }

    ghost function Table(): Tabs
      reads this, list.Values
    {
      map id | id in list :: list[id].State()
    }

    ghost function NormalPages(): set<BrowserPage>
      reads this
    {
      set id | id in list && list[id].preferredPos != POS_EXTRA :: list[id]
    }

    /** The bar holds the normal pages once each, in any order. */
    ghost predicate BarComplete()
      reads this
    {
      Distinct(bar) && Elements(bar) == NormalPages()
    }

    /** The bar is in position order and every page knows its place in it. */
    ghost predicate BarInOrder()
      reads this, list.Values, bar
    {
      && BarComplete()
      && (forall i, j :: 0 <= i < j < |bar| ==> bar[i].logicalPos < bar[j].logicalPos)
      && (forall i :: 0 <= i < |bar| ==> bar[i].index == i)
    }

    ghost predicate Valid()
      reads this, list.Values, bar
    {
      Linked() && Inv(Table()) && BarInOrder()
    }

    constructor ()
      ensures Valid() && list == map[] && bar == []
    {
      list := map[];
      bar := [];
    }

    // ---------- counting and searching ----------

    predicate IsExtraPage(page: BrowserPage) {
      page.preferredPos == POS_EXTRA
    }

    method NormalPageCount() returns (count: int)
      ensures count == |Normal(Table())|
    {
      ghost var tabs := Table();
      assert Normal(tabs) * list.Keys == Normal(tabs);
      count := 0;
      var todo := list.Keys;
      while todo != {}
        invariant todo <= list.Keys
        invariant count + |Normal(tabs) * todo| == |Normal(tabs)|
        decreases |todo|
      {
        var id :| id in todo;
        CountStep(Normal(tabs), todo, id);
        assert id in Normal(tabs) <==> !IsExtraPage(list[id]);
        if !IsExtraPage(list[id]) {
          count := count + 1;
        }
        todo := todo - {id};
      }
      assert Normal(tabs) * {} == {};
    }

    method HasExtraPage() returns (found: bool)
      ensures found <==> HasExtra(Table())
    {
      var todo := list.Keys;
      while todo != {}
        invariant todo <= list.Keys
        invariant forall id :: id in list && id !in todo ==> Table()[id].pref != POS_EXTRA
        decreases |todo|
      {
        var id :| id in todo;
        if IsExtraPage(list[id]) {
          assert Table()[id].pref == POS_EXTRA;
          return true;
        }
        todo := todo - {id};
      }
      found := false;
    }

    method OccupiedPositions() returns (occupied: array<bool>)
      ensures fresh(occupied) && occupied.Length == MAX_TABS
      ensures forall p :: 0 <= p < MAX_TABS ==> (occupied[p] <==> Held(Table(), p))
    {
      ghost var tabs := Table();
      occupied := new bool[MAX_TABS](_ => false);
      var todo := list.Keys;
      while todo != {}
        invariant todo <= list.Keys
        invariant forall p :: 0 <= p < MAX_TABS ==>
                    (occupied[p] <==> exists id :: id in tabs && id !in todo && tabs[id].pos == p)
        decreases |todo|
      {
        var id :| id in todo;
        var pos := list[id].logicalPos;
        assert tabs[id].pos == pos;
        if 0 <= pos < MAX_TABS {
          occupied[pos] := true;
        }
        todo := todo - {id};
      }
    }

    method FreePositionsInRange(start: int, end: int) returns (free: seq<int>)
      requires 0 <= start <= end < MAX_TABS
      ensures free == Ascending(Free(Table(), start, end), start, end)
    {
      var occupied := OccupiedPositions();
      free := Unoccupied(occupied, start, end, Free(Table(), start, end));
    }

    // ---------- allocation ----------

    /** `pages` are the page objects of the tabs `ids`, once each. */
    ghost predicate PagesOf(pages: seq<BrowserPage>, ids: set<TabId>)
      reads this
    {
      && Distinct(pages)
      && (forall i :: 0 <= i < |pages| ==>
            pages[i].uuid in ids && pages[i].uuid in list && list[pages[i].uuid] == pages[i])
      && (forall id :: id in ids ==> id in list && list[id] in pages)
    }

    method AllocateAbsolutePosition(page: BrowserPage) returns (r: Outcome)
      requires Linked() && page.uuid in list && list[page.uuid] == page
      modifies page`logicalPos
      ensures Table().Keys == old(Table()).Keys
      ensures match AllocateAbsolute(old(Table()), page.uuid)
              case Placed(tabs) => r == Done && Table() == tabs
              case _ => r == Failed && Table() == old(Table())
    {
      ghost var tabs := Table();
      if page.preferredPos < 0 || page.preferredPos >= MAX_TABS {
        return Failed;
      }
      var todo := list.Keys;
      while todo != {}
        invariant todo <= list.Keys && Table() == tabs
        invariant forall id :: id in list && id !in todo && id != page.uuid ==> tabs[id].pos != page.preferredPos
        decreases |todo|
      {
        var id :| id in todo;
        assert tabs[id] == list[id].State();
        if list[id] != page && list[id].logicalPos == page.preferredPos {
          return Failed;
        }
        todo := todo - {id};
      }
      page.logicalPos := page.preferredPos;
      r := Done;
    }

    /** The first loop of `allocateZonePosition`: the other pages of the zone and the positions they hold. */
    method PoolZone(page: BrowserPage, zone: int) returns (pages: seq<BrowserPage>, candidates: seq<int>)
      requires Linked() && page.uuid in list && list[page.uuid] == page
      ensures PagesOf(pages, Pooled(Table(), page.uuid, zone) - {page.uuid})
      ensures |candidates| == |pages|
      ensures forall i :: 0 <= i < |pages| ==> candidates[i] == pages[i].logicalPos
    {
      ghost var tabs := Table();
      pages, candidates := [], [];
      var todo := list.Keys;
      assert Pooled(tabs, page.uuid, zone) - {page.uuid} - todo == {};
      while todo != {}
        invariant todo <= list.Keys
        invariant PagesOf(pages, Pooled(tabs, page.uuid, zone) - {page.uuid} - todo)
        invariant |candidates| == |pages|
        invariant forall i :: 0 <= i < |pages| ==> candidates[i] == pages[i].logicalPos
        decreases |todo|
      {
        var id :| id in todo;
        var current := list[id];
        assert tabs[id] == current.State();
        if current != page && current.preferredPos == zone && InZone(current.logicalPos, zone) {
          assert id in Pooled(tabs, page.uuid, zone);
          pages := pages + [current];
          candidates := candidates + [current.logicalPos];
        }
        todo := todo - {id};
      }
      assert Pooled(tabs, page.uuid, zone) - {page.uuid} - {} == Pooled(tabs, page.uuid, zone) - {page.uuid};
    }

    lemma PooledPositions(page: BrowserPage, zone: int, pages: seq<BrowserPage>, all: seq<int>)
      requires Linked() && page.uuid in list && list[page.uuid] == page
      requires NoSharedPosition(Table())
      requires PagesOf(pages, Pooled(Table(), page.uuid, zone) - {page.uuid})
      requires |pages| <= |all| && forall i :: 0 <= i < |pages| ==> all[i] == pages[i].logicalPos
      requires all[|pages|..] == if InZone(page.logicalPos, zone) then [page.logicalPos] else []
      ensures Distinct(all)
      ensures Elements(all) == (set k | k in Pooled(Table(), page.uuid, zone) && InZone(Table()[k].pos, zone) :: Table()[k].pos)
    {
      var tabs := Table();
      forall i | 0 <= i < |pages| ensures all[i] == tabs[pages[i].uuid].pos {
        assert tabs[pages[i].uuid] == pages[i].State();
      }
      assert tabs[page.uuid] == page.State();
      assert forall i :: |pages| <= i < |all| ==> all[i] == all[|pages|..][i - |pages|];
      forall k | k in Pooled(tabs, page.uuid, zone) && InZone(tabs[k].pos, zone) ensures tabs[k].pos in all {
        if k == page.uuid {
          assert all[|pages|] == page.logicalPos;
        } else {
          assert list[k] in pages;
          var i :| 0 <= i < |pages| && pages[i] == list[k];
          assert all[i] == tabs[k].pos;
        }
      }
    }

    lemma IdsOf(pages: seq<BrowserPage>, sorted: seq<BrowserPage>, ids: seq<TabId>, group: set<TabId>)
      requires Linked() && PagesOf(pages, group)
      requires Elements(sorted) == Elements(pages) && |sorted| == |pages| == |ids|
      requires forall i :: 0 <= i < |ids| ==> ids[i] == sorted[i].uuid
      ensures Elements(ids) == group && |ids| == |group| && PagesOf(sorted, group)
    {
      ElementsSize(pages);
      DistinctBySize(sorted);
      forall i | 0 <= i < |sorted| ensures sorted[i].uuid in group && list[sorted[i].uuid] == sorted[i] {
        assert sorted[i] in Elements(pages);
      }
      forall id | id in group ensures list[id] in sorted {
        assert list[id] in Elements(sorted);
      }
      forall id | id in group ensures id in ids {
        assert list[id] in sorted;
        var i :| 0 <= i < |sorted| && sorted[i] == list[id];
        assert ids[i] == id;
      }
      assert Distinct(ids);
      ElementsSize(ids);
    }

    /** The pages in the order of (url, uuid), so that each stands at its rank. */
    method SortByUrl(pages: seq<BrowserPage>, ghost group: set<TabId>) returns (sorted: seq<BrowserPage>)
      requires Linked() && PagesOf(pages, group)
      ensures |sorted| == |pages| == |group| && PagesOf(sorted, group)
      ensures forall i :: 0 <= i < |sorted| ==> Rank(TabLess(Table()), group, sorted[i].uuid) == i
    {
      ghost var tabs := Table();
      KeyOrder(tabs);
      forall a, b | a in pages && b in pages ensures PageUrlLess(a, b) == TabLess(tabs)(a.uuid, b.uuid) {
        assert tabs[a.uuid] == a.State() && tabs[b.uuid] == b.State();
      }
      sorted := Sort(pages, PageUrlLess);
      assert forall p :: p in sorted <==> p in Elements(pages);
      ghost var ids := seq(|sorted|, i requires 0 <= i < |sorted| => sorted[i].uuid);
      IdsOf(pages, sorted, ids, group);
      forall i | 0 <= i < |sorted| ensures Rank(TabLess(tabs), group, sorted[i].uuid) == i {
        RankIsIndex(TabLess(tabs), group, ids, i);
      }
    }

    /** The dealing loop. */
    method DealOut(pages: seq<BrowserPage>, slots: seq<int>, skip: nat, ghost group: set<TabId>)
      requires Linked() && PagesOf(pages, group)
      requires skip + |pages| <= |slots|
      modifies list.Values`logicalPos
      ensures Table().Keys == old(Table()).Keys
      ensures forall id :: id in list && id !in group ==> Table()[id] == old(Table())[id]
      ensures forall i :: 0 <= i < |pages| ==>
                Table()[pages[i].uuid] == old(Table())[pages[i].uuid].(pos := slots[skip + i])
    {
      ghost var tabs := Table();
      for i := 0 to |pages|
        invariant forall j :: 0 <= j < i ==> pages[j].logicalPos == slots[skip + j]
        invariant forall p :: p in list.Values && p !in pages[..i] ==> p.logicalPos == old(p.logicalPos)
      {
        pages[i].logicalPos := slots[skip + i];
      }
      forall id | id in list && id !in group ensures Table()[id] == tabs[id] {
        assert list[id] !in pages;
      }
    }

    /** The pages a reallocation deals to: those pooled and the page itself. */
    lemma PagesWith(pages: seq<BrowserPage>, page: BrowserPage, group: set<TabId>)
      requires Linked() && page.uuid in list && list[page.uuid] == page
      requires page.uuid in group && PagesOf(pages, group - {page.uuid})
      ensures PagesOf(pages + [page], group)
    {
      forall id | id in group ensures list[id] in pages + [page] {
        if id != page.uuid {
          assert list[id] in pages;
        } else {
          assert (pages + [page])[|pages|] == page;
        }
      }
    }

    /** The candidate positions, sorted: what the other pages and this one hold in the zone, and what is free. */
    method CandidateSlots(page: BrowserPage, zone: int, pages: seq<BrowserPage>, held: seq<int>)
      returns (slots: seq<int>)
      requires Linked() && page.uuid in list && list[page.uuid] == page && IsZone(zone)
      requires NoSharedPosition(Table())
      requires PagesOf(pages, Pooled(Table(), page.uuid, zone) - {page.uuid})
      requires |held| == |pages| && forall i :: 0 <= i < |pages| ==> held[i] == pages[i].logicalPos
      ensures slots == Ascending(Candidates(Table(), page.uuid, zone), ZoneStart(zone), ZoneEnd(zone))
    {
      ghost var tabs := Table();
      var start, end := ZoneStart(zone), ZoneEnd(zone);
      var free := FreePositionsInRange(start, end);
      assert Table() == tabs;
      var candidates := held;
      if start <= page.logicalPos <= end {
        candidates := candidates + [page.logicalPos];
      }
      PooledPositions(page, zone, pages, candidates);
      slots := SortCandidates(candidates, free, tabs, page.uuid, zone);
      assert Table() == tabs;
    }

    /** The preparation of `allocateZonePosition`: the pages in tab order and the slots in increasing order. */
    method PrepareDeal(page: BrowserPage, zone: int) returns (pages: seq<BrowserPage>, slots: seq<int>)
      requires Linked() && page.uuid in list && list[page.uuid] == page && IsZone(zone)
      requires NoSharedPosition(Table())
      ensures var group := Pooled(Table(), page.uuid, zone);
              && PagesOf(pages, group) && |pages| == |group|
              && (forall i :: 0 <= i < |pages| ==> Rank(TabLess(Table()), group, pages[i].uuid) == i)
      ensures slots == Ascending(Candidates(Table(), page.uuid, zone), ZoneStart(zone), ZoneEnd(zone))
    {
      ghost var tabs := Table();
      ghost var group := Pooled(tabs, page.uuid, zone);
      var held;
      pages, held := PoolZone(page, zone);
      assert Table() == tabs;
      slots := CandidateSlots(page, zone, pages, held);
      assert Table() == tabs;
      PagesWith(pages, page, group);
      pages := SortByUrl(pages + [page], group);
      assert Table() == tabs;
    }

    /** What the dealing loop has written is the deal. */
    lemma DealtTable(tabs: Tabs, pages: seq<BrowserPage>, slots: seq<int>, skip: nat, group: set<TabId>, zone: int)
      requires Linked() && PagesOf(pages, group) && group <= tabs.Keys
      requires |pages| == |group| && skip + |pages| <= |slots|
      requires skip == if zone == POS_END then |slots| - |group| else 0
      requires Table().Keys == tabs.Keys
      requires forall id :: id in list && id !in group ==> Table()[id] == tabs[id]
      requires forall i :: 0 <= i < |pages| ==> Table()[pages[i].uuid] == tabs[pages[i].uuid].(pos := slots[skip + i])
      requires forall i :: 0 <= i < |pages| ==> Rank(TabLess(tabs), group, pages[i].uuid) == i
      ensures Table() == Deal(tabs, group, slots, zone)
    {
      var ids := seq(|pages|, i requires 0 <= i < |pages| => pages[i].uuid);
      forall id | id in group ensures id in ids {
        assert list[id] in pages;
        var i :| 0 <= i < |pages| && pages[i] == list[id];
        assert ids[i] == id;
      }
      var after := Table();
      forall i | 0 <= i < |ids|
        ensures ids[i] in group && Rank(TabLess(tabs), group, ids[i]) == i
        ensures after[ids[i]] == tabs[ids[i]].(pos := slots[skip + i])
      {
        assert ids[i] == pages[i].uuid;
      }
      DealByIndex(tabs, after, ids, slots, skip, group, zone);
    }

    method AllocateZonePosition(page: BrowserPage, zone: int) returns (r: Outcome)
      requires Linked() && page.uuid in list && list[page.uuid] == page
      requires NoSharedPosition(Table())
      modifies list.Values`logicalPos
      ensures !IsZone(zone) ==> r == Failed && Table() == old(Table())
      ensures IsZone(zone) ==>
                match AllocateZone(old(Table()), page.uuid, zone)
                case Placed(tabs) => r == Done && Table() == tabs
                case Refused => r == Failed && Table() == old(Table())
                case OutOfRange => r == BeyondCandidates
    {
      if ZoneStart(zone) < 0 || ZoneEnd(zone) < ZoneStart(zone) {
        return Failed;
      }
      ghost var tabs, group := Table(), Pooled(Table(), page.uuid, zone);
      var pages, slots := PrepareDeal(page, zone);
      if |slots| == 0 {
        return Failed;
      }
      if |pages| > |slots| {
        // here the source reads past the end of candidatePositions, or in the END zone before its beginning
        return BeyondCandidates;
      }
      var skip := if zone == POS_END then |slots| - |pages| else 0;
      DealOut(pages, slots, skip, group);
      DealtTable(tabs, pages, slots, skip, group, zone);
      r := Done;
    }

    method AllocateAnyPosition(page: BrowserPage) returns (r: Outcome)
      requires Linked() && page.uuid in list && list[page.uuid] == page
      modifies page`logicalPos
      ensures match AllocateAny(old(Table()), page.uuid)
              case Placed(tabs) => r == Done && Table() == tabs
              case _ => r == Failed && Table() == old(Table())
    {
      ghost var tabs := Table();
      assert tabs[page.uuid] == page.State();
      var free := FreePositionsInRange(0, MAX_TABS - 1);
      assert Table() == tabs;
      if |free| == 0 {
        return Failed;
      }
      page.logicalPos := free[0];
      assert Table() == tabs[page.uuid := tabs[page.uuid].(pos := free[0])];
      r := Done;
    }

    method AllocateLogicalPosition(page: BrowserPage) returns (r: Outcome)
      requires Linked() && page.uuid in list && list[page.uuid] == page && NoSharedPosition(Table())
      modifies list.Values`logicalPos
      ensures match Allocate(old(Table()), page.uuid)
              case Placed(tabs) => r == Done && Table() == tabs
              case Refused => r == Failed && Table() == old(Table())
              case OutOfRange => r == BeyondCandidates
    {
      ghost var tabs := Table();
      assert tabs[page.uuid] == page.State();
      var count := NormalPageCount();
      assert Table() == tabs;
      if !IsExtraPage(page) && count > MAX_TABS {
        return Failed;
      }
      if page.preferredPos == POS_ANY {
        r := AllocateAnyPosition(page);
      } else if IsZone(page.preferredPos) {
        r := AllocateZonePosition(page, page.preferredPos);
      } else if page.preferredPos == POS_EXTRA {
        page.logicalPos := POS_EXTRA;
        r := Done;
      } else {
        r := AllocateAbsolutePosition(page);
      }
    }

    // ---------- the bar ----------

    /** The normal pages, by logical position. */
    method PagesInDisplayOrder() returns (pages: seq<BrowserPage>)
      requires Linked() && NoSharedPosition(Table())
      ensures Elements(pages) == NormalPages() && Distinct(pages)
      ensures forall i, j :: 0 <= i < j < |pages| ==> pages[i].logicalPos < pages[j].logicalPos
    {
      ghost var tabs := Table();
      pages := [];
      var todo := list.Keys;
      while todo != {}
        invariant todo <= list.Keys && Distinct(pages)
        invariant forall i :: 0 <= i < |pages| ==>
                    && pages[i].preferredPos != POS_EXTRA && pages[i].uuid !in todo
                    && pages[i].uuid in list && list[pages[i].uuid] == pages[i]
        invariant forall id :: id in list && id !in todo && list[id].preferredPos != POS_EXTRA ==> list[id] in pages
        decreases |todo|
      {
        var id :| id in todo;
        if !IsExtraPage(list[id]) {
          pages := pages + [list[id]];
        }
        todo := todo - {id};
      }
      ghost var unsorted := pages;
      forall a, b | a in unsorted && b in unsorted && a != b ensures a.logicalPos != b.logicalPos {
        assert tabs[a.uuid] == a.State() && tabs[b.uuid] == b.State();
      }
      ElementsSize(unsorted);
      pages := Sort(pages, PagePositionLess);
      assert Elements(pages) == Elements(unsorted);
      DistinctBySize(pages);
      forall i, j | 0 <= i < j < |pages| ensures pages[i].logicalPos < pages[j].logicalPos {
        assert pages[i] in Elements(pages) && pages[j] in Elements(pages);
      }
    }

    /** The `moveTab` loop: a bar of the same pages in any order ends in the order of `pages`. */
    method MoveTabsInto(pages: seq<BrowserPage>)
      requires Distinct(bar) && Distinct(pages) && Elements(bar) == Elements(pages)
      modifies this`bar
      ensures bar == pages
    {
      ElementsSize(pages);
      ElementsSize(bar);
      for i := 0 to |pages|
        invariant |bar| == |pages| && bar[..i] == pages[..i]
        invariant Elements(bar) == Elements(pages)
      {
        assert pages[i] in Elements(bar);
        var currentIndex := IndexOf(bar, pages[i]);
        assert currentIndex >= i;
        MoveTabSettles(bar, currentIndex, i);
        if currentIndex >= 0 && currentIndex != i {
          bar := MoveTab(bar, currentIndex, i);
        }
        assert pages[..i + 1] == pages[..i] + [pages[i]];
      }
      assert bar == bar[..|bar|] == pages[..|pages|] == pages;
    }

    /** `updatePageIndex` for every page of the bar. */
    method UpdateIndices(pages: seq<BrowserPage>)
      requires bar == pages && Distinct(bar) && forall i :: 0 <= i < |pages| ==> pages[i] in list.Values
      modifies list.Values`index
      ensures forall i :: 0 <= i < |bar| ==> bar[i].index == i
    {
      for i := 0 to |pages|
        invariant forall j :: 0 <= j < i ==> bar[j].index == j
      {
        assert pages[i] in bar;
        var index := IndexOf(bar, pages[i]);
        pages[i].index := index;
      }
    }

    /**
     `syncTabOrder`: whatever order the bar was in, it ends in position order, and every page has cached its place.
     */
    method SyncTabOrder()
      requires Linked() && NoSharedPosition(Table()) && BarComplete()
      modifies this`bar, list.Values`index
      ensures Table() == old(Table())
      ensures BarInOrder()
    {
      var pages := PagesInDisplayOrder();
      MoveTabsInto(pages);
      forall i | 0 <= i < |pages| ensures pages[i] in list.Values {
        assert pages[i] in Elements(pages);
      }
      UpdateIndices(pages);
    }

    // ---------- the slots ----------

    /** The bar runs through the positions of `tabs` in increasing order. */
    ghost predicate BarFollows(tabs: Tabs)
      reads this`bar
    {
      forall i, j :: 0 <= i < j < |bar| ==>
        bar[i].uuid in tabs && bar[j].uuid in tabs && tabs[bar[i].uuid].pos < tabs[bar[j].uuid].pos
    }

    lemma BarInTable()
      requires Linked() && forall i :: 0 <= i < |bar| ==> bar[i] in list.Values
      ensures BarFollows(Table()) <==> forall i, j :: 0 <= i < j < |bar| ==> bar[i].logicalPos < bar[j].logicalPos
    {
      var tabs := Table();
      forall i | 0 <= i < |bar| ensures bar[i].uuid in tabs && tabs[bar[i].uuid].pos == bar[i].logicalPos {
        assert tabs[bar[i].uuid] == bar[i].State();
      }
    }

    lemma BarAmongPages(pages: set<BrowserPage>)
      requires Elements(bar) == pages <= NormalPages()
      ensures forall i :: 0 <= i < |bar| ==> bar[i] in pages && bar[i] in list.Values
    {
      forall i | 0 <= i < |bar| ensures bar[i] in pages {
        assert bar[i] in Elements(bar);
      }
    }

    lemma OrderedBarFollows()
      requires Linked() && BarInOrder()
      ensures BarFollows(Table())
    {
      BarAmongPages(NormalPages());
      BarInTable();
    }

    /** A new entry in the map that is not in the bar leaves the bar in order. */
    lemma BarKept(page: BrowserPage, before: Tabs, tab: Tab)
      requires Linked() && page.uuid !in before && Table() == before[page.uuid := tab] && BarFollows(before)
      requires Elements(bar) == NormalPages() - {page}
      ensures forall i, j :: 0 <= i < j < |bar| ==> bar[i].logicalPos < bar[j].logicalPos
    {
      BarAmongPages(NormalPages() - {page});
      assert BarFollows(Table());
      BarInTable();
    }

    method ForgetPage(page: BrowserPage)
      requires Linked() && page.uuid in list && list[page.uuid] == page
      modifies this`list
      ensures Linked() && list == old(list) - {page.uuid}
      ensures Table() == old(Table()) - {page.uuid} && NormalPages() == old(NormalPages()) - {page}
    {
      ghost var files, normal := list, NormalPages();
      list := list - {page.uuid};
      forall p ensures p in NormalPages() <==> p in normal - {page} {
        if p in normal - {page} {
          assert files[p.uuid] == p && p.uuid in list;
        }
      }
    }

    /** The rollback: a page without a position leaves the map again and was never in the bar. */
    method TakeBack(page: BrowserPage, ghost files: map<TabId, BrowserPage>, ghost before: Tabs, ghost tab: Tab)
      requires Linked() && page.uuid !in files && list == files[page.uuid := page]
      requires Distinct(bar) && Elements(bar) == NormalPages() - {page}
      requires BarFollows(before) && page.uuid !in before && Table() == before[page.uuid := tab]
      requires forall i :: 0 <= i < |bar| ==> bar[i].index == i
      modifies this`list
      ensures list == files && Linked() && BarInOrder()
      ensures Table() == before
    {
      BarKept(page, before, tab);
      ForgetPage(page);
      assert list == files;
    }

    /** The new page is entered, without a position. */
    method EnterPage(url: string, preferredPos: int, uuid: TabId) returns (page: BrowserPage)
      requires Linked() && uuid !in list
      modifies this`list
      ensures fresh(page) && page.uuid == uuid && page.preferredPos == preferredPos && page.index == -1
      ensures list == old(list)[uuid := page] && Linked()
      ensures NormalPages() - {page} == old(NormalPages())
      ensures Table() == old(Table())[uuid := Tab(url, preferredPos, -1)]
    {
      ghost var before, normal := Table(), NormalPages();
      page := new BrowserPage(uuid, url, preferredPos);
      list := list[uuid := page];
      assert NormalPages() - {page} == normal by {
        forall p | p in normal ensures p in NormalPages() - {page} {
          assert list[p.uuid] == old(list)[p.uuid];
        }
      }
      assert Table() == before[uuid := Tab(url, preferredPos, -1)];
    }

    /** The new page is entered and the allocator asked for its position. */
    method AddPage(url: string, preferredPos: int, uuid: TabId) returns (r: Outcome, page: BrowserPage)
      requires Linked() && Inv(Table()) && uuid !in list
      modifies this`list, list.Values`logicalPos
      ensures fresh(page) && page.uuid == uuid && page.preferredPos == preferredPos && page.index == -1
      ensures list == old(list)[uuid := page] && Linked()
      ensures NormalPages() - {page} == old(NormalPages())
      ensures match Allocate(old(Table())[uuid := Tab(url, preferredPos, -1)], uuid)
              case Placed(tabs) => r == Done && Table() == tabs
              case Refused => r == Failed && Table() == old(Table())[uuid := Tab(url, preferredPos, -1)]
              case OutOfRange => r == BeyondCandidates
    {
      ghost var before := Table();
      page := EnterPage(url, preferredPos, uuid);
      NewTabApart(before, uuid, url, preferredPos);
      r := AllocateLogicalPosition(page);
    }

    /** A placed page goes into the bar, unless it belongs to the extra zone. */
    method ShowPage(page: BrowserPage, ghost before: Tabs, ghost extra: Tab)
      requires Linked() && NoSharedPosition(Table()) && page.uuid in list && list[page.uuid] == page
      requires Distinct(bar) && page !in bar && Elements(bar) == NormalPages() - {page}
      requires IsExtraPage(page) ==>
                 && page.uuid !in before && Table() == before[page.uuid := extra] && BarFollows(before)
                 && (forall i :: 0 <= i < |bar| ==> bar[i].index == i)
      modifies this`bar, list.Values`index
      ensures BarInOrder() && Table() == old(Table())
    {
      if !IsExtraPage(page) {
        assert page in NormalPages();
        assert Elements(bar + [page]) == Elements(bar) + {page};
        bar := bar + [page];
        SyncTabOrder();
      } else {
        BarKept(page, before, extra);
      }
    }

    /** The part of `onNewWebTab` that makes a page, looks for its position and takes it back if there is none. */
    method InsertPage(url: string, preferredPos: int, uuid: TabId) returns (result: ResultCode)
      requires Linked() && Inv(Table()) && BarInOrder() && uuid !in list
      requires var outcome := Allocate(Table()[uuid := Tab(url, preferredPos, -1)], uuid);
               outcome.Placed? ==> NoSharedPosition(outcome.tabs)
      modifies this, list.Values
      ensures match Allocate(old(Table())[uuid := Tab(url, preferredPos, -1)], uuid)
              case Placed(tabs) =>
                && result == OK && Linked() && BarInOrder() && Table() == tabs
                && uuid in list && fresh(list[uuid]) && list == old(list)[uuid := list[uuid]]
              case Refused =>
                && result == ExecError && Linked() && BarInOrder() && Table() == old(Table())
                && list == old(list) && bar == old(bar)
              case OutOfRange => result == Undefined
    {
      ghost var files, before := list, Table();
      OrderedBarFollows();
      var r, page := AddPage(url, preferredPos, uuid);
      if r == BeyondCandidates {
        return Undefined;
      }
      if r == Failed {
        TakeBack(page, files, before, Tab(url, preferredPos, -1));
        return ExecError;
      }
      ShowPage(page, before, Tab(url, preferredPos, POS_EXTRA));
      result := OK;
    }

    method OnNewWebTab(url: string, preferredPos: int, uuid: TabId) returns (result: ResultCode)
      requires Valid() && uuid !in list
      modifies this, list.Values
      ensures match Create(old(Table()), uuid, url, preferredPos)
              case Placed(tabs) =>
                && result == OK && Valid() && Table() == tabs
                && uuid in list && fresh(list[uuid]) && list == old(list)[uuid := list[uuid]]
              case Refused =>
                && result == ExecError && Valid() && Table() == old(Table())
                && list == old(list) && bar == old(bar)
              case OutOfRange => result == Undefined
    {
      ghost var before := Table();
      var extraPage := preferredPos == POS_EXTRA;
      var count := NormalPageCount();
      assert Table() == before;
      var extraTaken := HasExtraPage();
      assert Table() == before;
      if !extraPage && count >= MAX_TABS {
        return ExecError;
      }
      if extraPage && extraTaken {
        return ExecError;
      }
      CreateKeepsInv(before, uuid, url, preferredPos);
      result := InsertPage(url, preferredPos, uuid);
    }

    method SetUrl(page: BrowserPage, url: string)
      requires Linked() && BarInOrder() && page.uuid in list && list[page.uuid] == page
      modifies page`url
      ensures Linked() && BarInOrder()
      ensures Table() == old(Table())[page.uuid := old(page.State()).(url := url)]
    {
      page.url := url;
    }

    /** The reallocation of `onNavigateTo`, which brings the bar in order again if it has placed the page. */
    method DealZoneOf(page: BrowserPage)
      requires Linked() && BarComplete() && page.uuid in list && list[page.uuid] == page && IsZone(page.preferredPos)
      requires NoSharedPosition(Table())
      requires AllocateZone(Table(), page.uuid, page.preferredPos).Placed?
      requires NoSharedPosition(AllocateZone(Table(), page.uuid, page.preferredPos).tabs)
      modifies this`bar, list.Values`logicalPos, list.Values`index
      ensures Linked() && BarInOrder()
      ensures Placed(Table()) == AllocateZone(old(Table()), page.uuid, page.preferredPos)
    {
      var r := AllocateZonePosition(page, page.preferredPos);
      if r == Done {
        SyncTabOrder();
      }
    }

    method MovePageInZone(page: BrowserPage, url: string)
      requires Linked() && Inv(Table()) && BarInOrder() && page.uuid in list && list[page.uuid] == page
      requires IsZone(page.preferredPos)
      modifies this`bar, list.Values
      ensures Linked() && BarInOrder()
      ensures Navigate(old(Table()), page.uuid, url) == Placed(Table())
    {
      ghost var before := Table();
      assert before[page.uuid] == page.State();
      MovedTabAwaitsDeal(before, page.uuid, url);
      NavigateInZone(before, page.uuid, url);
      SetUrl(page, url);
      DealZoneOf(page);
    }

    method OnNavigateTo(uuid: TabId, url: string) returns (result: ResultCode)
      requires Valid()
      modifies this`bar, list.Values
      ensures Valid() && list == old(list)
      ensures uuid !in list ==> result == TabNotFound && Table() == old(Table())
      ensures uuid in list ==> result == OK && Navigate(old(Table()), uuid, url) == Placed(Table())
    {
      if uuid !in list {
        return TabNotFound;
      }
      ghost var before := Table();
      var page := list[uuid];
      assert before[uuid] == page.State();
      NavigatePlaces(before, uuid, url);
      if IsZone(page.preferredPos) {
        MovePageInZone(page, url);
      } else {
        NavigateInPlace(before, uuid, url);
        SetUrl(page, url);
      }
      result := OK;
    }

    /** `QTabWidget::removeTab` of the page's tab. */
    method RemoveFromBar(page: BrowserPage)
      requires Distinct(bar)
      modifies this`bar
      ensures Distinct(bar) && Elements(bar) == Elements(old(bar)) - {page}
    {
      var index := IndexOf(bar, page);
      if index >= 0 {
        RemovedElements(bar, index);
        bar := bar[..index] + bar[index + 1..];
      }
    }

    /** The destroying branches of `onKillTab`. */
    method DestroyPage(page: BrowserPage)
      requires Linked() && NoSharedPosition(Table()) && BarInOrder() && page.uuid in list && list[page.uuid] == page
      modifies this, list.Values`index
      ensures Linked() && BarInOrder()
      ensures list == old(list) - {page.uuid} && Table() == old(Table()) - {page.uuid}
    {
      if IsExtraPage(page) {
        ForgetPage(page);
      } else {
        RemoveFromBar(page);
        ForgetPage(page);
        SyncTabOrder();
      }
    }

    method OnKillTab(uuid: TabId, forceDestroy: bool) returns (result: ResultCode)
      requires Valid()
      modifies this, list.Values
      ensures Valid() && Table() == Kill(old(Table()), uuid, forceDestroy)
      ensures result == if uuid in old(list) then OK else TabNotFound
      ensures list == if Table() == old(Table()) then old(list) else old(list) - {uuid}
    {
      if uuid !in list {
        return TabNotFound;
      }
      ghost var before := Table();
      KillKeepsInv(before, uuid, forceDestroy);
      var page := list[uuid];
      assert before[uuid] == page.State();
      if IsExtraPage(page) && !forceDestroy {
        return OK;
      }
      DestroyPage(page);
      result := OK;
    }

    method OnGetTabMap() returns (cells: seq<Cell>)
      requires Valid()
      ensures cells == TabMap(Table())
    {
      ghost var tabs := Table();
      cells := seq(MAX_TABS, _ => Empty);
      var todo := list.Keys;
      while todo != {}
        invariant todo <= list.Keys && |cells| == MAX_TABS
        invariant forall p :: 0 <= p < MAX_TABS ==>
                    match cells[p]
                    case At(id) => id in tabs && id !in todo && tabs[id].pos == p
                    case Empty => forall id :: id in tabs && id !in todo ==> tabs[id].pos != p
        decreases |todo|
      {
        var id :| id in todo;
        var page := list[id];
        assert tabs[id] == page.State();
        if 0 <= page.logicalPos < MAX_TABS {
          cells := cells[page.logicalPos := At(id)];
        }
        todo := todo - {id};
      }
      forall p | 0 <= p < MAX_TABS ensures cells[p] == TabMap(tabs)[p] {
      }
    }

    /** `onActivateTab` and `onBlinkTab` as far as their answer goes: the tab is found iff it is there. */
    method OnBlinkTab(uuid: TabId) returns (result: ResultCode)
      requires Valid()
      modifies list.Values`index
      ensures Valid() && Table() == old(Table())
      ensures result == if uuid in list then OK else TabNotFound
    {
      if uuid !in list {
        return TabNotFound;
      }
      var page := list[uuid];
      if IsExtraPage(page) {
        return OK;
      }
      assert page in Elements(bar);
      var index := IndexOf(bar, page);
      page.index := index;
      result := if page.index >= 0 then OK else TabNotFound;
    }
  }
}
