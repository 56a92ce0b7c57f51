/**
 The position table over whole runs: what every create, navigation and kill keeps, when a create succeeds, and which
 runs are defined to their end.
 */
module TabRuns {
  import opened Ordering
  import opened TabPositions
  import opened ZoneAllocation

  // ---------- one operation ----------

  /** A zone whose tabs have not changed is still sorted. */
  lemma StillSorted(before: Tabs, after: Tabs, zone: int)
    requires ZoneSorted(before, zone)
    requires forall k :: k in after && after[k].pref == zone ==> k in before && before[k] == after[k]
    ensures ZoneSorted(after, zone)
  {
    forall a, b | a in after && b in after && after[a].pref == after[b].pref == zone && TabLess(after)(a, b)
      ensures after[a].pos < after[b].pos
    {
      assert TabLess(before)(a, b);
    }
  }

  lemma NewTabAwaitsDeal(tabs: Tabs, id: TabId, url: string, zone: int)
    requires Inv(tabs) && id !in tabs && IsZone(zone)
    ensures AwaitsDeal(tabs[id := Tab(url, zone, -1)], id, zone)
  {
    var added := tabs[id := Tab(url, zone, -1)];
    forall z | IsZone(z) && z != zone ensures ZoneSorted(added, z) {
      StillSorted(tabs, added, z);
    }
    assert forall k :: k in tabs ==> WellPlaced(tabs[k]);
  }

  lemma MovedTabAwaitsDeal(tabs: Tabs, id: TabId, url: string)
    requires Inv(tabs) && id in tabs && IsZone(tabs[id].pref)
    ensures AwaitsDeal(tabs[id := tabs[id].(url := url)], id, tabs[id].pref)
  {
    var moved, zone := tabs[id := tabs[id].(url := url)], tabs[id].pref;
    assert WellPlaced(tabs[id]);
    forall z | IsZone(z) && z != zone ensures ZoneSorted(moved, z) {
      StillSorted(tabs, moved, z);
    }
  }

  /** Setting one tab that is not in a zone, to a position nobody else holds. */
  lemma PlacingKeepsInv(tabs: Tabs, id: TabId, tab: Tab)
    requires Inv(tabs)
    requires id in tabs ==> !IsZone(tabs[id].pref)
    requires !IsZone(tab.pref) && WellPlaced(tab)
    requires forall k :: k in tabs && k != id ==> tabs[k].pos != tab.pos
    ensures Inv(tabs[id := tab])
  {
    var added := tabs[id := tab];
    forall z | IsZone(z) ensures ZoneSorted(added, z) {
      StillSorted(tabs, added, z);
    }
  }

  lemma CreateZoneKeepsInv(tabs: Tabs, id: TabId, url: string, zone: int)
    requires Inv(tabs) && id !in tabs && IsZone(zone)
    ensures var added := tabs[id := Tab(url, zone, -1)];
            Create(tabs, id, url, zone).Placed? ==>
              && |Wanting(added, zone)| <= |SlotsOf(added, zone)|
              && Create(tabs, id, url, zone).tabs == Dealt(added, zone)
              && Inv(Dealt(added, zone))
  {
    var added := tabs[id := Tab(url, zone, -1)];
    NewTabAwaitsDeal(tabs, id, url, zone);
    PlacedIsDealt(added, id, zone);
    if Create(tabs, id, url, zone).Placed? {
      DealRestoresInv(added, id, zone);
    }
  }

  lemma CreateKeepsInv(tabs: Tabs, id: TabId, url: string, pref: int)
    requires Inv(tabs) && id !in tabs
    ensures Create(tabs, id, url, pref).Placed? ==> Inv(Create(tabs, id, url, pref).tabs)
  {
    if IsZone(pref) {
      CreateZoneKeepsInv(tabs, id, url, pref);
    } else if Create(tabs, id, url, pref).Placed? {
      var added, after := tabs[id := Tab(url, pref, -1)], Create(tabs, id, url, pref).tabs;
      assert after == tabs[id := after[id]];
      forall k | k in tabs ensures tabs[k].pos != after[id].pos {
        assert WellPlaced(tabs[k]);
        assert added[k] == tabs[k];
        assert Held(added, tabs[k].pos);
      }
      PlacingKeepsInv(tabs, id, after[id]);
    }
  }

  /** What a navigation may change: the URL of its tab, and positions only inside the zone of that tab. */
  ghost predicate NavigationFrame(tabs: Tabs, id: TabId, url: string, after: Tabs)
    requires id in tabs
  {
    && after.Keys == tabs.Keys && after[id].url == url
    && (forall k :: k in tabs && k != id ==> after[k].url == tabs[k].url)
    && (forall k :: k in tabs ==> after[k].pref == tabs[k].pref)
    && (forall k :: k in tabs && (tabs[k].pref != tabs[id].pref || !IsZone(tabs[id].pref))
          ==> after[k].pos == tabs[k].pos)
  }

  lemma NavigateInZone(tabs: Tabs, id: TabId, url: string)
    requires Inv(tabs) && id in tabs && IsZone(tabs[id].pref)
    ensures var moved, zone := tabs[id := tabs[id].(url := url)], tabs[id].pref;
            && |Wanting(moved, zone)| <= |SlotsOf(moved, zone)|
            && AllocateZone(moved, id, zone) == Navigate(tabs, id, url) == Placed(Dealt(moved, zone))
            && Inv(Dealt(moved, zone))
  {
    var moved, zone := tabs[id := tabs[id].(url := url)], tabs[id].pref;
    assert WellPlaced(tabs[id]);
    MovedTabAwaitsDeal(tabs, id, url);
    ZoneOutcome(moved, id, zone);
    PlacedIsDealt(moved, id, zone);
    DealRestoresInv(moved, id, zone);
  }

  lemma NavigateInPlace(tabs: Tabs, id: TabId, url: string)
    requires id in tabs && !IsZone(tabs[id].pref)
    ensures Navigate(tabs, id, url) == Placed(tabs[id := tabs[id].(url := url)])
  {
  }

  lemma MovedFrame(tabs: Tabs, id: TabId, url: string, moved: Tabs, after: Tabs)
    requires id in tabs && IsZone(tabs[id].pref) && moved == tabs[id := tabs[id].(url := url)]
    requires after.Keys == moved.Keys
    requires forall k :: k in moved ==> after[k].url == moved[k].url && after[k].pref == moved[k].pref
    requires forall k :: k in moved && moved[k].pref != tabs[id].pref ==> after[k] == moved[k]
    ensures NavigationFrame(tabs, id, url, after)
  {
  }

  /** A tab that navigates always keeps a position: a reallocation can neither fail nor run out of range. */
  lemma NavigatePlaces(tabs: Tabs, id: TabId, url: string)
    requires Inv(tabs) && id in tabs
    ensures Navigate(tabs, id, url).Placed?
    ensures Inv(Navigate(tabs, id, url).tabs)
    ensures NavigationFrame(tabs, id, url, Navigate(tabs, id, url).tabs)
  {
    if IsZone(tabs[id].pref) {
      var moved, zone := tabs[id := tabs[id].(url := url)], tabs[id].pref;
      NavigateInZone(tabs, id, url);
      DealFrame(moved, zone);
      MovedFrame(tabs, id, url, moved, Dealt(moved, zone));
    } else {
      NavigateInPlace(tabs, id, url);
      assert WellPlaced(tabs[id]);
      PlacingKeepsInv(tabs, id, tabs[id].(url := url));
    }
  }

  lemma KillKeepsInv(tabs: Tabs, id: TabId, force: bool)
    requires Inv(tabs)
    ensures Inv(Kill(tabs, id, force))
  {
    var after := Kill(tabs, id, force);
    forall z | IsZone(z) ensures ZoneSorted(after, z) {
      StillSorted(tabs, after, z);
    }
  }

  // ---------- when a create succeeds ----------

  lemma NormalCount(tabs: Tabs)
    requires Inv(tabs)
    ensures |Normal(tabs)| + |Free(tabs, 0, MAX_TABS - 1)| == MAX_TABS
    ensures |Free(tabs, 0, MAX_TABS - 1)| == |Ascending(Free(tabs, 0, MAX_TABS - 1), 0, MAX_TABS - 1)|
  {
    var free := Free(tabs, 0, MAX_TABS - 1);
    var held := set k | k in Normal(tabs) :: tabs[k].pos;
    PositionsCount(tabs, Normal(tabs), held);
    forall p | p in held ensures p in Interval(0, MAX_TABS - 1) - free {
      var k :| k in Normal(tabs) && tabs[k].pos == p;
      assert WellPlaced(tabs[k]);
    }
    forall p | p in Interval(0, MAX_TABS - 1) - free ensures p in held {
      var k :| k in tabs && tabs[k].pos == p;
      assert WellPlaced(tabs[k]);
    }
    assert held == Interval(0, MAX_TABS - 1) - free;
    AscendingSize(free, 0, MAX_TABS - 1);
  }

  /** Whether the browser has room for a tab with this preference. */
  ghost predicate HasRoom(tabs: Tabs, pref: int) {
    if pref == POS_EXTRA then !HasExtra(tabs)
    else if pref == POS_ANY then |Normal(tabs)| < MAX_TABS
    else if IsZone(pref) then Free(tabs, ZoneStart(pref), ZoneEnd(pref)) != {}
    else 0 <= pref < MAX_TABS && !Held(tabs, pref)
  }

  /** A new zone tab finds its zone full, some of it taken by tabs that asked for the zone too. */
  ghost predicate ZoneOverfull(tabs: Tabs, pref: int) {
    && IsZone(pref)
    && |Normal(tabs)| < MAX_TABS
    && Free(tabs, ZoneStart(pref), ZoneEnd(pref)) == {}
    && Wanting(tabs, pref) != {}
  }

  /** A normal create below the limit goes through to the allocation its preference asks for. */
  lemma CreateAllocates(tabs: Tabs, id: TabId, url: string, pref: int)
    requires id !in tabs && pref != POS_EXTRA
    ensures |Normal(tabs)| >= MAX_TABS ==> Create(tabs, id, url, pref).Refused?
    ensures var added := tabs[id := Tab(url, pref, -1)];
            |Normal(tabs)| < MAX_TABS ==>
              Create(tabs, id, url, pref) ==
              if pref == POS_ANY then AllocateAny(added, id)
              else if IsZone(pref) then AllocateZone(added, id, pref)
              else AllocateAbsolute(added, id)
  {
    var added := tabs[id := Tab(url, pref, -1)];
    assert Normal(added) == Normal(tabs) + {id};
  }

  /**
   What a create leaves: the new tab with its URL and preference, every other tab with its own, and everybody outside
   the zone of the new tab in place.
   */
  lemma CreateFrame(tabs: Tabs, id: TabId, url: string, pref: int)
    requires Inv(tabs) && id !in tabs && Create(tabs, id, url, pref).Placed?
    ensures var after := Create(tabs, id, url, pref).tabs;
            && after.Keys == tabs.Keys + {id}
            && after[id].url == url && after[id].pref == pref
            && (forall k :: k in tabs ==> after[k].url == tabs[k].url && after[k].pref == tabs[k].pref)
            && (forall k :: k in tabs && !(IsZone(pref) && tabs[k].pref == pref) ==> after[k].pos == tabs[k].pos)
  {
    if IsZone(pref) {
      CreateZoneKeepsInv(tabs, id, url, pref);
      DealFrame(tabs[id := Tab(url, pref, -1)], pref);
    } else if pref != POS_EXTRA {
      CreateAllocates(tabs, id, url, pref);
    }
  }

  lemma SameFree(tabs: Tabs, id: TabId, tab: Tab, lo: int, hi: int)
    requires id !in tabs && tab.pos == -1 && 0 <= lo
    ensures Free(tabs[id := tab], lo, hi) == Free(tabs, lo, hi)
  {
    var added := tabs[id := tab];
    forall p | p >= 0 ensures Held(tabs, p) <==> Held(added, p) {
      if k :| k in tabs && tabs[k].pos == p {
        assert added[k].pos == p;
      }
    }
  }

  /** A tab for any position gets the smallest free one. */
  lemma AnyTakesSmallest(tabs: Tabs, id: TabId, url: string)
    requires Inv(tabs) && id !in tabs && Create(tabs, id, url, POS_ANY).Placed?
    ensures var pos := Create(tabs, id, url, POS_ANY).tabs[id].pos;
            0 <= pos < MAX_TABS && !Held(tabs, pos) && forall p :: 0 <= p < pos ==> Held(tabs, p)
  {
    CreateAllocates(tabs, id, url, POS_ANY);
    SameFree(tabs, id, Tab(url, POS_ANY, -1), 0, MAX_TABS - 1);
    SmallestFirst(Free(tabs, 0, MAX_TABS - 1), 0, MAX_TABS - 1);
    assert forall p :: 0 <= p < MAX_TABS ==> (p in Free(tabs, 0, MAX_TABS - 1) <==> !Held(tabs, p));
  }

  lemma AnyCreateOutcome(tabs: Tabs, id: TabId, url: string)
    requires Inv(tabs) && id !in tabs
    ensures Create(tabs, id, url, POS_ANY).Placed? <==> |Normal(tabs)| < MAX_TABS
    ensures !Create(tabs, id, url, POS_ANY).OutOfRange?
  {
    NormalCount(tabs);
    CreateAllocates(tabs, id, url, POS_ANY);
    SameFree(tabs, id, Tab(url, POS_ANY, -1), 0, MAX_TABS - 1);
  }

  lemma NewTabWants(tabs: Tabs, id: TabId, tab: Tab)
    requires id !in tabs
    ensures Wanting(tabs[id := tab], tab.pref) == Wanting(tabs, tab.pref) + {id}
    ensures Wanting(tabs[id := tab], tab.pref) == {id} <==> Wanting(tabs, tab.pref) == {}
  {
    assert id !in Wanting(tabs, tab.pref);
    assert Wanting(tabs, tab.pref) == Wanting(tabs[id := tab], tab.pref) - {id};
  }

  lemma NewZoneTabOutcome(tabs: Tabs, id: TabId, url: string, zone: int)
    requires Inv(tabs) && id !in tabs && IsZone(zone)
    ensures var added := tabs[id := Tab(url, zone, -1)];
            var full := Free(tabs, ZoneStart(zone), ZoneEnd(zone)) == {};
            && (AllocateZone(added, id, zone).Placed? <==> !full)
            && (AllocateZone(added, id, zone).OutOfRange? <==> full && Wanting(tabs, zone) != {})
  {
    var tab, added := Tab(url, zone, -1), tabs[id := Tab(url, zone, -1)];
    NewTabAwaitsDeal(tabs, id, url, zone);
    SameFree(tabs, id, tab, ZoneStart(zone), ZoneEnd(zone));
    ZoneOutcome(added, id, zone);
    NewTabWants(tabs, id, tab);
  }

  /** A free position in a zone is a free position in the bar, so the total is below the limit. */
  lemma ZoneRoomIsRoom(tabs: Tabs, zone: int)
    requires Inv(tabs) && IsZone(zone)
    ensures Free(tabs, ZoneStart(zone), ZoneEnd(zone)) != {} ==> |Normal(tabs)| < MAX_TABS
  {
    if p :| p in Free(tabs, ZoneStart(zone), ZoneEnd(zone)) {
      NormalCount(tabs);
      assert p in Free(tabs, 0, MAX_TABS - 1);
    }
  }

  lemma ZoneCreateOutcome(tabs: Tabs, id: TabId, url: string, zone: int)
    requires Inv(tabs) && id !in tabs && IsZone(zone)
    ensures Create(tabs, id, url, zone).Placed? <==> HasRoom(tabs, zone)
    ensures Create(tabs, id, url, zone).OutOfRange? <==> ZoneOverfull(tabs, zone)
  {
    NewZoneTabOutcome(tabs, id, url, zone);
    CreateAllocates(tabs, id, url, zone);
    ZoneRoomIsRoom(tabs, zone);
  }

  lemma RoomLeft(tabs: Tabs, pos: int)
    requires Inv(tabs) && 0 <= pos < MAX_TABS && !Held(tabs, pos)
    ensures |Normal(tabs)| < MAX_TABS
  {
    NormalCount(tabs);
    assert pos in Free(tabs, 0, MAX_TABS - 1);
  }

  lemma AbsoluteOutcome(tabs: Tabs, id: TabId, url: string, pref: int)
    requires Inv(tabs) && id !in tabs && 0 <= pref < MAX_TABS
    ensures var added := tabs[id := Tab(url, pref, -1)];
            AllocateAbsolute(added, id).Placed? <==> !Held(tabs, pref)
    ensures !Held(tabs, pref) ==> |Normal(tabs)| < MAX_TABS
  {
    var added := tabs[id := Tab(url, pref, -1)];
    if Held(tabs, pref) {
      var k :| k in tabs && tabs[k].pos == pref;
      assert k != id && added[k].pos == pref;
    } else {
      RoomLeft(tabs, pref);
      forall k | k in added && k != id ensures added[k].pos != pref {
        assert added[k] == tabs[k];
      }
    }
  }

  /**
   A create succeeds iff there is room, and in all other cases but one it is refused. The exception: a zone that is
   full with at least one tab of the same preference, where the source does not fail but reads out of range.
   */
  lemma CreateOutcome(tabs: Tabs, id: TabId, url: string, pref: int)
    requires Inv(tabs) && id !in tabs
    ensures Create(tabs, id, url, pref).Placed? <==> HasRoom(tabs, pref)
    ensures Create(tabs, id, url, pref).OutOfRange? <==> ZoneOverfull(tabs, pref)
  {
    if IsZone(pref) {
      ZoneCreateOutcome(tabs, id, url, pref);
    } else if pref == POS_ANY {
      AnyCreateOutcome(tabs, id, url);
    } else if pref != POS_EXTRA {
      CreateAllocates(tabs, id, url, pref);
      if 0 <= pref < MAX_TABS {
        AbsoluteOutcome(tabs, id, url, pref);
      }
    }
  }

  // ---------- runs ----------

  datatype Op =
    | NewTab(id: TabId, url: string, pref: int)
    | NavigateTo(id: TabId, url: string)
    | KillTab(id: TabId, force: bool)

  /** What one slot call leaves; a create that is refused and an unknown id leave the table as it was. */
  ghost function Apply(tabs: Tabs, op: Op): Allocation {
    match op
    case NewTab(id, url, pref) =>
      var r := Create(tabs, id, url, pref);
      if r.Refused? then Placed(tabs) else r
    case NavigateTo(id, url) => if id in tabs then Navigate(tabs, id, url) else Placed(tabs)
    case KillTab(id, force) => Placed(Kill(tabs, id, force))
  }

  /** A run ends early where the source reads past the candidate list: from there on it promises nothing. */
  ghost function Run(tabs: Tabs, ops: seq<Op>): Allocation
    decreases |ops|
  {
    if |ops| == 0 then Placed(tabs)
    else
      var r := Apply(tabs, ops[0]);
      if r.Placed? then Run(r.tabs, ops[1..]) else OutOfRange
  }

  /** Every new tab comes with an id never used before. */
  ghost predicate FreshIds(used: set<TabId>, ops: seq<Op>) {
    && (forall i :: 0 <= i < |ops| && ops[i].NewTab? ==> ops[i].id !in used)
    && (forall i, j :: 0 <= i < j < |ops| && ops[i].NewTab? && ops[j].NewTab? ==> ops[i].id != ops[j].id)
  }

  lemma ApplyKeeps(tabs: Tabs, op: Op)
    requires Inv(tabs) && (op.NewTab? ==> op.id !in tabs)
    ensures Apply(tabs, op).Placed? ==>
              Inv(Apply(tabs, op).tabs) && Apply(tabs, op).tabs.Keys <= tabs.Keys + {op.id}
  {
    match op
    case NewTab(id, url, pref) =>
      CreateKeepsInv(tabs, id, url, pref);
    case NavigateTo(id, url) =>
      if id in tabs {
        NavigatePlaces(tabs, id, url);
      }
    case KillTab(id, force) =>
      KillKeepsInv(tabs, id, force);
  }

  ghost predicate MeetsOverfull(tabs: Tabs, op: Op) {
    op.NewTab? && ZoneOverfull(tabs, op.pref)
  }

  /** The table after one operation, if that is defined. */
  ghost function TableAfter(tabs: Tabs, op: Op): Tabs {
    if Apply(tabs, op).Placed? then Apply(tabs, op).tabs else tabs
  }

  /** No create of the run finds its zone overfull. */
  ghost predicate AvoidsOverfull(tabs: Tabs, ops: seq<Op>)
    decreases |ops|
  {
    |ops| == 0 || (!MeetsOverfull(tabs, ops[0]) && AvoidsOverfull(TableAfter(tabs, ops[0]), ops[1..]))
  }

  /** One operation reads out of range iff it is a create for an overfull zone. */
  lemma ApplyOutcome(tabs: Tabs, op: Op)
    requires Inv(tabs) && (op.NewTab? ==> op.id !in tabs)
    ensures Apply(tabs, op).Placed? <==> !MeetsOverfull(tabs, op)
  {
    match op
    case NewTab(id, url, pref) =>
      CreateOutcome(tabs, id, url, pref);
    case NavigateTo(id, url) =>
      if id in tabs {
        NavigatePlaces(tabs, id, url);
      }
    case KillTab(_, _) =>
  }

  lemma KeysAfter(tabs: Tabs, op: Op)
    requires Inv(tabs) && (op.NewTab? ==> op.id !in tabs)
    ensures Apply(tabs, op).Placed? && !op.NewTab? ==> Apply(tabs, op).tabs.Keys <= tabs.Keys
  {
    if op.NavigateTo? && op.id in tabs {
      NavigatePlaces(tabs, op.id, op.url);
    }
  }

  lemma FreshAfter(tabs: Tabs, ops: seq<Op>)
    requires Inv(tabs) && FreshIds(tabs.Keys, ops) && |ops| > 0 && Apply(tabs, ops[0]).Placed?
    ensures FreshIds(Apply(tabs, ops[0]).tabs.Keys, ops[1..])
  {
    var next := Apply(tabs, ops[0]).tabs;
    ApplyKeeps(tabs, ops[0]);
    KeysAfter(tabs, ops[0]);
    forall i | 0 <= i < |ops[1..]| && ops[1..][i].NewTab? ensures ops[1..][i].id !in next {
      assert ops[1..][i] == ops[i + 1];
      assert ops[0].NewTab? ==> ops[0].id != ops[i + 1].id;
    }
  }

  /** Exactly the runs that meet no overfull zone are defined to their end. */
  lemma {:induction false} RunOutcome(tabs: Tabs, ops: seq<Op>)
    requires Inv(tabs) && FreshIds(tabs.Keys, ops)
    ensures Run(tabs, ops).Placed? <==> AvoidsOverfull(tabs, ops)
    decreases |ops|
  {
    if |ops| > 0 {
      ApplyOutcome(tabs, ops[0]);
      if Apply(tabs, ops[0]).Placed? {
        ApplyKeeps(tabs, ops[0]);
        FreshAfter(tabs, ops);
        RunOutcome(Apply(tabs, ops[0]).tabs, ops[1..]);
      }
    }
  }

  /** Over every run of creates, navigations and kills the position table stays in order. */
  lemma {:induction false} RunKeepsInv(tabs: Tabs, ops: seq<Op>)
    requires Inv(tabs) && FreshIds(tabs.Keys, ops)
    ensures Run(tabs, ops).Placed? ==> Inv(Run(tabs, ops).tabs)
    decreases |ops|
  {
    if |ops| > 0 && Apply(tabs, ops[0]).Placed? {
      ApplyKeeps(tabs, ops[0]);
      FreshAfter(tabs, ops);
      RunKeepsInv(Apply(tabs, ops[0]).tabs, ops[1..]);
    }
  }

  /** In a table in order, two tabs of a zone stand in the order of their URLs, or of their uuids if these are equal. */
  lemma SortedInZone(tabs: Tabs, a: TabId, b: TabId)
    requires Inv(tabs) && a in tabs && b in tabs && tabs[a].pref == tabs[b].pref && IsZone(tabs[a].pref)
    ensures (exists i: nat :: FirstDifference(tabs[a].url, tabs[b].url, i)) ==> tabs[a].pos < tabs[b].pos
    ensures tabs[a].url == tabs[b].url && (exists i: nat :: FirstDifference(a, b, i)) ==> tabs[a].pos < tabs[b].pos
  {
    KeyLessMeaning(tabs[a].url, a, tabs[b].url, b);
    if KeyLess(tabs[a].url, a, tabs[b].url, b) {
      assert ZoneSorted(tabs, tabs[a].pref);
      assert TabLess(tabs)(a, b);
    }
  }

  /**
   What holds after every run from the empty browser that meets no overfull zone: normal tabs have pairwise distinct
   positions in [0, MAX_TABS), zone tabs are in their zone and sorted by (url, uuid), a tab with an absolute preference
   is where it asked to be, and there is at most one extra tab, at POS_EXTRA.
   */
  lemma RunGuarantee(ops: seq<Op>)
    requires FreshIds({}, ops) && AvoidsOverfull(map[], ops)
    ensures Run(map[], ops).Placed?
    ensures var tabs := Run(map[], ops).tabs;
            && (forall id :: id in tabs && tabs[id].pref != POS_EXTRA ==> 0 <= tabs[id].pos < MAX_TABS)
            && (forall a, b :: a in tabs && b in tabs && a != b ==> tabs[a].pos != tabs[b].pos)
            && (forall id :: id in tabs && IsZone(tabs[id].pref) ==> InZone(tabs[id].pos, tabs[id].pref))
            && (forall id :: id in tabs && 0 <= tabs[id].pref ==> tabs[id].pos == tabs[id].pref)
            && (forall a, b :: a in tabs && b in tabs && tabs[a].pref == tabs[b].pref && IsZone(tabs[a].pref) ==>
                  && ((exists i: nat :: FirstDifference(tabs[a].url, tabs[b].url, i)) ==> tabs[a].pos < tabs[b].pos)
                  && (tabs[a].url == tabs[b].url && (exists i: nat :: FirstDifference(a, b, i)) ==>
                        tabs[a].pos < tabs[b].pos))
            && (forall id :: id in tabs && tabs[id].pref == POS_EXTRA ==> tabs[id].pos == POS_EXTRA)
            && (forall a, b :: a in tabs && b in tabs && tabs[a].pref == tabs[b].pref == POS_EXTRA ==> a == b)
  {
    RunOutcome(map[], ops);
    RunKeepsInv(map[], ops);
    var tabs := Run(map[], ops).tabs;
    forall id | id in tabs ensures WellPlaced(tabs[id]) {
    }
    forall a, b | a in tabs && b in tabs && tabs[a].pref == tabs[b].pref && IsZone(tabs[a].pref)
      ensures (exists i: nat :: FirstDifference(tabs[a].url, tabs[b].url, i)) ==> tabs[a].pos < tabs[b].pos
      ensures tabs[a].url == tabs[b].url && (exists i: nat :: FirstDifference(a, b, i)) ==> tabs[a].pos < tabs[b].pos
    {
      SortedInZone(tabs, a, b);
    }
  }
}
