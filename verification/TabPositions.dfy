/**
 The tab positions of the browser as a mathematical state: which tab prefers what, and where every tab stands.
 The functions say what each operation of `Browser` does to that state; `BrowserTabs` proves that the operations
 on page objects do exactly this.
 */
module TabPositions {
  import opened Ordering

  const MAX_TABS := 20
  const POS_ANY := -1
  const POS_BEGINNING := -2
  const POS_MIDDLE := -3
  const POS_END := -4
  const POS_EXTRA := -10

  type TabId = string

  /** One entry of `Browser::list`: current URL, position asked for, position held. */
  datatype Tab = Tab(url: string, pref: int, pos: int)

  type Tabs = map<TabId, Tab>

  /** What an allocation ends in. `OutOfRange` stands for the reads past the end of the candidate list. */
  datatype Allocation = Placed(tabs: Tabs) | Refused | OutOfRange

  predicate IsZone(pref: int) {
    pref == POS_BEGINNING || pref == POS_MIDDLE || pref == POS_END
  }

  function ZoneStart(pref: int): int {
    var third := MAX_TABS / 3;
    if pref == POS_BEGINNING then 0
    else if pref == POS_MIDDLE then third
    else if pref == POS_END then third * 2
    else -1
  }

  function ZoneEnd(pref: int): int {
    var third := MAX_TABS / 3;
    if pref == POS_BEGINNING then third - 1
    else if pref == POS_MIDDLE then third * 2 - 1
    else if pref == POS_END then MAX_TABS - 1
    else -1
  }

  predicate InZone(pos: int, pref: int) {
    ZoneStart(pref) <= pos <= ZoneEnd(pref)
  }

  // ---------- what is taken and what is free ----------

  ghost function Normal(tabs: Tabs): set<TabId> {
    set id | id in tabs && tabs[id].pref != POS_EXTRA
  }

  ghost predicate HasExtra(tabs: Tabs) {
    exists id :: id in tabs && tabs[id].pref == POS_EXTRA
  }

  ghost predicate Held(tabs: Tabs, pos: int) {
    exists id :: id in tabs && tabs[id].pos == pos
  }

  ghost function Free(tabs: Tabs, lo: int, hi: int): set<int> {
    set p | p in Interval(lo, hi) && !Held(tabs, p)
  }

  /** The members of `s` between lo and hi, in increasing order. */
  ghost function Ascending(s: set<int>, lo: int, hi: int): (r: seq<int>)
    ensures forall i :: 0 <= i < |r| ==> lo <= r[i] <= hi && r[i] in s
    ensures forall i, j :: 0 <= i < j < |r| ==> r[i] < r[j]
    ensures forall p :: p in s && lo <= p <= hi ==> p in r
    decreases hi - lo
  {
    if lo > hi then [] else (if lo in s then [lo] else []) + Ascending(s, lo + 1, hi)
  }

  // ---------- the order of tabs inside a zone ----------

  predicate KeyLess(url: string, id: TabId, url': string, id': TabId) {
    if url != url' then StringLess(url, url') else StringLess(id, id')
  }

  ghost function TabLess(tabs: Tabs): (less: (TabId, TabId) -> bool)
  {
    (a, b) => a in tabs && b in tabs && KeyLess(tabs[a].url, a, tabs[b].url, b)
  }

  // ---------- allocation ----------

  /** The tabs whose positions a zone allocation for `id` deals out. */
  ghost function Pooled(tabs: Tabs, id: TabId, zone: int): set<TabId> {
    set k | k in tabs && (k == id || (tabs[k].pref == zone && InZone(tabs[k].pos, zone)))
  }

  /** The positions it deals: those the pooled tabs hold in the zone, and the free ones. */
  ghost function Candidates(tabs: Tabs, id: TabId, zone: int): set<int> {
    (set k | k in Pooled(tabs, id, zone) && InZone(tabs[k].pos, zone) :: tabs[k].pos)
    + Free(tabs, ZoneStart(zone), ZoneEnd(zone))
  }

  ghost function SlotAt(slots: seq<int>, i: nat): int {
    if i < |slots| then slots[i] else -1
  }

  /** Deal `slots` to `group` in tab order: from the left, or for the END zone up to the right edge. */
  ghost function Deal(tabs: Tabs, group: set<TabId>, slots: seq<int>, zone: int): Tabs
    requires group <= tabs.Keys && |group| <= |slots|
  {
    var skip := if zone == POS_END then |slots| - |group| else 0;
    map k | k in tabs ::
      if k in group then tabs[k].(pos := SlotAt(slots, skip + Rank(TabLess(tabs), group, k))) else tabs[k]
  }

  ghost function AllocateZone(tabs: Tabs, id: TabId, zone: int): Allocation
    requires id in tabs && IsZone(zone)
  {
    var group := Pooled(tabs, id, zone);
    var slots := Ascending(Candidates(tabs, id, zone), ZoneStart(zone), ZoneEnd(zone));
    if |slots| == 0 then Refused
    else if |group| > |slots| then OutOfRange
    else Placed(Deal(tabs, group, slots, zone))
  }

  ghost function AllocateAbsolute(tabs: Tabs, id: TabId): Allocation
    requires id in tabs
  {
    var want := tabs[id].pref;
    if want < 0 || want >= MAX_TABS || (exists k :: k in tabs && k != id && tabs[k].pos == want) then Refused
    else Placed(tabs[id := tabs[id].(pos := want)])
  }

  ghost function AllocateAny(tabs: Tabs, id: TabId): Allocation
    requires id in tabs
  {
    var free := Ascending(Free(tabs, 0, MAX_TABS - 1), 0, MAX_TABS - 1);
    if |free| == 0 then Refused else Placed(tabs[id := tabs[id].(pos := free[0])])
  }

  ghost function Allocate(tabs: Tabs, id: TabId): Allocation
    requires id in tabs
  {
    var pref := tabs[id].pref;
    if pref != POS_EXTRA && |Normal(tabs)| > MAX_TABS then Refused
    else if pref == POS_ANY then AllocateAny(tabs, id)
    else if IsZone(pref) then AllocateZone(tabs, id, pref)
    else if pref == POS_EXTRA then Placed(tabs[id := tabs[id].(pos := POS_EXTRA)])
    else AllocateAbsolute(tabs, id)
  }

  // ---------- operations ----------

  ghost function Create(tabs: Tabs, id: TabId, url: string, pref: int): Allocation {
    if pref != POS_EXTRA && |Normal(tabs)| >= MAX_TABS then Refused
    else if pref == POS_EXTRA && HasExtra(tabs) then Refused
    else Allocate(tabs[id := Tab(url, pref, -1)], id)
  }

  /** Only a tab that is there can be navigated; a zone tab then has its zone dealt again. */
  ghost function Navigate(tabs: Tabs, id: TabId, url: string): Allocation
    requires id in tabs
  {
    var moved := tabs[id := tabs[id].(url := url)];
    if IsZone(tabs[id].pref) then
      match AllocateZone(moved, id, tabs[id].pref)
      case Placed(dealt) => Placed(dealt)
      case Refused => Placed(moved)
      case OutOfRange => OutOfRange
    else
      Placed(moved)
  }

  /** A kill that is not forced only hides the extra tab. */
  ghost function Kill(tabs: Tabs, id: TabId, force: bool): Tabs {
    if id in tabs && (force || tabs[id].pref != POS_EXTRA) then tabs - {id} else tabs
  }

  /** One cell of the answer to `GetTabMap`: a tab id, or -1 on the wire. */
  datatype Cell = Empty | At(id: TabId)

  ghost function CellAt(tabs: Tabs, pos: int): Cell {
    if Held(tabs, pos) then
      var id :| id in tabs && tabs[id].pos == pos;
      At(id)
    else
      Empty
  }

  ghost function TabMap(tabs: Tabs): seq<Cell> {
    seq(MAX_TABS, pos => CellAt(tabs, pos))
  }
}
