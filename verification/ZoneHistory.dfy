/**
 Zone allocation has no memory: the deal depends on who is in the zone, not on how they got there.
 */
module ZoneHistory {
  import opened Ordering
  import opened TabPositions
  import opened ZoneAllocation
  import opened TabRuns

  /** Equal but for the positions of the tabs that want `zone`. */
  ghost predicate SameButZone(tabs: Tabs, tabs': Tabs, zone: int) {
    && tabs.Keys == tabs'.Keys
    && (forall k :: k in tabs ==> tabs[k].url == tabs'[k].url && tabs[k].pref == tabs'[k].pref)
    && (forall k :: k in tabs && tabs[k].pref != zone ==> tabs[k] == tabs'[k])
  }

  lemma SameSlots(tabs: Tabs, tabs': Tabs, zone: int)
    requires SameButZone(tabs, tabs', zone)
    ensures Wanting(tabs, zone) == Wanting(tabs', zone) && SlotsOf(tabs, zone) == SlotsOf(tabs', zone)
  {
    assert Available(tabs, zone) == Available(tabs', zone);
    assert Wanting(tabs, zone) == Wanting(tabs', zone);
  }

  lemma SameTurn(tabs: Tabs, tabs': Tabs, zone: int, k: TabId)
    requires SameButZone(tabs, tabs', zone)
    ensures Turn(tabs, zone, k) == Turn(tabs', zone, k)
  {
    assert Wanting(tabs, zone) == Wanting(tabs', zone);
    RankDependsOn(TabLess(tabs), TabLess(tabs'), Wanting(tabs, zone), k);
  }

  lemma SameDealt(tabs: Tabs, tabs': Tabs, zone: int, k: TabId)
    requires SameButZone(tabs, tabs', zone) && k in tabs
    requires |Wanting(tabs, zone)| <= |SlotsOf(tabs, zone)|
    requires |Wanting(tabs', zone)| <= |SlotsOf(tabs', zone)|
    ensures Dealt(tabs, zone)[k] == Dealt(tabs', zone)[k]
  {
    SameSlots(tabs, tabs', zone);
    if k !in Wanting(tabs, zone) {
      DealFrame(tabs, zone);
      DealFrame(tabs', zone);
    } else {
      DealPosition(tabs, zone, k);
      DealPosition(tabs', zone, k);
      SameTurn(tabs, tabs', zone, k);
    }
  }

  /** Where the tabs of the zone stood before makes no difference to the deal. */
  lemma DealForgets(tabs: Tabs, tabs': Tabs, zone: int)
    requires SameButZone(tabs, tabs', zone)
    ensures Wanting(tabs, zone) == Wanting(tabs', zone) && SlotsOf(tabs, zone) == SlotsOf(tabs', zone)
    ensures |Wanting(tabs, zone)| <= |SlotsOf(tabs, zone)| ==> Dealt(tabs, zone) == Dealt(tabs', zone)
  {
    SameSlots(tabs, tabs', zone);
    if |Wanting(tabs, zone)| <= |SlotsOf(tabs, zone)| {
      DealFrame(tabs, zone);
      DealFrame(tabs', zone);
      forall k | k in tabs ensures Dealt(tabs, zone)[k] == Dealt(tabs', zone)[k] {
        SameDealt(tabs, tabs', zone, k);
      }
    }
  }

  /** Dealing a zone again, for any tab already in it, changes nothing. */
  lemma DealTwice(tabs: Tabs, id: TabId, zone: int, again: TabId)
    requires AwaitsDeal(tabs, id, zone) && AllocateZone(tabs, id, zone).Placed?
    requires again in tabs && tabs[again].pref == zone
    ensures AllocateZone(AllocateZone(tabs, id, zone).tabs, again, zone) == AllocateZone(tabs, id, zone)
  {
    PlacedIsDealt(tabs, id, zone);
    var dealt := Dealt(tabs, zone);
    DealFrame(tabs, zone);
    DealRestoresInv(tabs, id, zone);
    assert WellPlaced(dealt[again]);
    assert AwaitsDeal(dealt, again, zone);
    ZoneOutcome(dealt, again, zone);
    PlacedIsDealt(dealt, again, zone);
    DealForgets(tabs, dealt, zone);
  }

  // ---------- creating several tabs of one zone ----------

  datatype Request = Request(id: TabId, url: string)

  ghost function CreateAll(tabs: Tabs, requests: seq<Request>, zone: int): Allocation
    decreases |requests|
  {
    if |requests| == 0 then Placed(tabs)
    else
      var r := Create(tabs, requests[0].id, requests[0].url, zone);
      if r.Placed? then CreateAll(r.tabs, requests[1..], zone) else r
  }

  ghost predicate NewIds(tabs: Tabs, requests: seq<Request>) {
    && (forall i :: 0 <= i < |requests| ==> requests[i].id !in tabs)
    && (forall i, j :: 0 <= i < j < |requests| ==> requests[i].id != requests[j].id)
  }

  ghost function Join(tabs: Tabs, request: Request, zone: int): Tabs {
    tabs[request.id := Tab(request.url, zone, -1)]
  }

  /** All requested tabs entered, none of them placed yet. */
  ghost function Joined(tabs: Tabs, requests: seq<Request>, zone: int): Tabs
    decreases |requests|
  {
    if |requests| == 0 then tabs else Joined(Join(tabs, requests[0], zone), requests[1..], zone)
  }

  lemma RestIsNew(tabs: Tabs, requests: seq<Request>, next: Tabs)
    requires NewIds(tabs, requests) && |requests| > 0
    requires next.Keys == tabs.Keys + {requests[0].id}
    ensures NewIds(next, requests[1..])
  {
    assert forall i :: 0 <= i < |requests[1..]| ==> requests[1..][i] == requests[i + 1];
  }

  lemma {:induction false} JoinedContents(tabs: Tabs, requests: seq<Request>, zone: int)
    requires NewIds(tabs, requests)
    ensures Joined(tabs, requests, zone).Keys == tabs.Keys + (set r | r in requests :: r.id)
    ensures forall k :: k in tabs ==> Joined(tabs, requests, zone)[k] == tabs[k]
    ensures forall r :: r in requests ==> Joined(tabs, requests, zone)[r.id] == Tab(r.url, zone, -1)
    decreases |requests|
  {
    if |requests| > 0 {
      var first, rest := requests[0], requests[1..];
      assert requests == [first] + rest;
      RestIsNew(tabs, requests, Join(tabs, first, zone));
      JoinedContents(Join(tabs, first, zone), rest, zone);
    }
  }

  lemma {:induction false} JoinedAlike(tabs: Tabs, tabs': Tabs, requests: seq<Request>, zone: int)
    requires SameButZone(tabs, tabs', zone)
    ensures SameButZone(Joined(tabs, requests, zone), Joined(tabs', requests, zone), zone)
    decreases |requests|
  {
    if |requests| > 0 {
      JoinedAlike(Join(tabs, requests[0], zone), Join(tabs', requests[0], zone), requests[1..], zone);
    }
  }

  /** In a table in order, the available positions of a zone are those of its tabs and the free ones. */
  lemma AvailableCount(tabs: Tabs, zone: int)
    requires Inv(tabs) && IsZone(zone)
    ensures |SlotsOf(tabs, zone)| == |Wanting(tabs, zone)| + |Free(tabs, ZoneStart(zone), ZoneEnd(zone))|
  {
    if id :| id in Wanting(tabs, zone) {
      assert WellPlaced(tabs[id]);
      PoolSize(tabs, id, zone);
    } else {
      assert forall k :: k in tabs ==> k !in Wanting(tabs, zone);
      assert Available(tabs, zone) == Free(tabs, ZoneStart(zone), ZoneEnd(zone));
      AscendingSize(Available(tabs, zone), ZoneStart(zone), ZoneEnd(zone));
    }
  }

  /** One create in a zone with room: the zone is dealt, and one position fewer is free. */
  lemma CreateTakesOne(tabs: Tabs, request: Request, zone: int)
    requires Inv(tabs) && request.id !in tabs && IsZone(zone)
    requires Free(tabs, ZoneStart(zone), ZoneEnd(zone)) != {}
    ensures var added := Join(tabs, request, zone);
            && |Wanting(added, zone)| <= |SlotsOf(added, zone)|
            && Create(tabs, request.id, request.url, zone) == Placed(Dealt(added, zone))
            && Inv(Dealt(added, zone))
            && |Free(Dealt(added, zone), ZoneStart(zone), ZoneEnd(zone))|
               == |Free(tabs, ZoneStart(zone), ZoneEnd(zone))| - 1
  {
    var tab := Tab(request.url, zone, -1);
    var added := tabs[request.id := tab];
    ZoneCreateOutcome(tabs, request.id, request.url, zone);
    CreateZoneKeepsInv(tabs, request.id, request.url, zone);
    NewTabAwaitsDeal(tabs, request.id, request.url, zone);
    PoolSize(added, request.id, zone);
    SameFree(tabs, request.id, tab, ZoneStart(zone), ZoneEnd(zone));
    DealFrame(added, zone);
    DealForgets(added, Dealt(added, zone), zone);
    AvailableCount(Dealt(added, zone), zone);
  }

  /** Creating a list of tabs in a zone with room goes on from the deal of the zone to the first of them. */
  lemma FirstCreate(tabs: Tabs, requests: seq<Request>, zone: int)
    requires Inv(tabs) && IsZone(zone) && NewIds(tabs, requests) && |requests| > 0
    requires Free(tabs, ZoneStart(zone), ZoneEnd(zone)) != {}
    ensures var rest, added := requests[1..], Join(tabs, requests[0], zone);
            && |Wanting(added, zone)| <= |SlotsOf(added, zone)|
            && Inv(Dealt(added, zone)) && NewIds(Dealt(added, zone), rest)
            && |Free(Dealt(added, zone), ZoneStart(zone), ZoneEnd(zone))|
               == |Free(tabs, ZoneStart(zone), ZoneEnd(zone))| - 1
            && CreateAll(tabs, requests, zone) == CreateAll(Dealt(added, zone), rest, zone)
            && Joined(tabs, requests, zone) == Joined(added, rest, zone)
            && (|rest| == 0 ==>
                  CreateAll(tabs, requests, zone) == Placed(Dealt(added, zone)) && Joined(added, rest, zone) == added)
  {
    var added := Join(tabs, requests[0], zone);
    CreateTakesOne(tabs, requests[0], zone);
    assert Dealt(added, zone).Keys == added.Keys by {
      DealFrame(added, zone);
    }
    RestIsNew(tabs, requests, Dealt(added, zone));
  }

  /** A deal in between makes no difference to the deal of all who join. */
  lemma JoinedAfterDeal(added: Tabs, rest: seq<Request>, zone: int)
    requires |Wanting(added, zone)| <= |SlotsOf(added, zone)|
    ensures Dealt(added, zone).Keys == added.Keys
    ensures var joined, joined' := Joined(added, rest, zone), Joined(Dealt(added, zone), rest, zone);
            && Wanting(joined, zone) == Wanting(joined', zone) && SlotsOf(joined, zone) == SlotsOf(joined', zone)
            && (|Wanting(joined, zone)| <= |SlotsOf(joined, zone)| ==> Dealt(joined, zone) == Dealt(joined', zone))
  {
    DealFrame(added, zone);
    JoinedAlike(added, Dealt(added, zone), rest, zone);
    DealForgets(Joined(added, rest, zone), Joined(Dealt(added, zone), rest, zone), zone);
  }

  /**
   Creating a list of zone tabs succeeds iff they fit, and what it leaves is the deal of everybody who is then in the
   zone: nothing in it tells in which order they came.
   */
  lemma {:induction false} CreateAllIsDealt(tabs: Tabs, requests: seq<Request>, zone: int)
    requires Inv(tabs) && IsZone(zone) && NewIds(tabs, requests) && |requests| > 0
    ensures var joined, created := Joined(tabs, requests, zone), CreateAll(tabs, requests, zone);
            && (created.Placed? <==> |requests| <= |Free(tabs, ZoneStart(zone), ZoneEnd(zone))|)
            && (created.Placed? ==>
                  && |Wanting(joined, zone)| <= |SlotsOf(joined, zone)|
                  && created.tabs == Dealt(joined, zone))
    decreases |requests|
  {
    if Free(tabs, ZoneStart(zone), ZoneEnd(zone)) == {} {
      ZoneCreateOutcome(tabs, requests[0].id, requests[0].url, zone);
    } else {
      var rest, added := requests[1..], Join(tabs, requests[0], zone);
      FirstCreate(tabs, requests, zone);
      if |rest| > 0 {
        JoinedAfterDeal(added, rest, zone);
        CreateAllIsDealt(Dealt(added, zone), rest, zone);
      }
    }
  }

  lemma OneMoreNormal(tabs: Tabs, id: TabId, zone: int, added: Tabs, after: Tabs)
    requires id !in tabs && IsZone(zone)
    requires added.Keys == tabs.Keys + {id} == after.Keys && added[id].pref == zone
    requires forall k :: k in tabs ==> added[k].pref == tabs[k].pref
    requires forall k :: k in added ==> after[k].pref == added[k].pref
    ensures |Normal(after)| == |Normal(tabs)| + 1 && Wanting(after, zone) != {}
  {
    assert Normal(after) == Normal(tabs) + {id};
    assert id in Wanting(after, zone);
  }

  /** One create in a zone with room adds one normal tab, and the zone has a tab then. */
  lemma CreateCounts(tabs: Tabs, request: Request, zone: int)
    requires Inv(tabs) && request.id !in tabs && IsZone(zone)
    requires Free(tabs, ZoneStart(zone), ZoneEnd(zone)) != {}
    ensures var created := Create(tabs, request.id, request.url, zone);
            && created.Placed? && Inv(created.tabs) && created.tabs.Keys == tabs.Keys + {request.id}
            && |Normal(created.tabs)| == |Normal(tabs)| + 1
            && Wanting(created.tabs, zone) != {}
            && |Free(created.tabs, ZoneStart(zone), ZoneEnd(zone))|
               == |Free(tabs, ZoneStart(zone), ZoneEnd(zone))| - 1
  {
    CreateTakesOne(tabs, request, zone);
    var added := Join(tabs, request, zone);
    DealFrame(added, zone);
    OneMoreNormal(tabs, request.id, zone, added, Dealt(added, zone));
  }

  /**
   When creating a list of zone tabs reads out of range: they are more than the zone has free, a tab of the zone is
   there by the time it is full, and the bar is not full by then.
   */
  lemma {:induction false} CreateAllOverfills(tabs: Tabs, requests: seq<Request>, zone: int)
    requires Inv(tabs) && IsZone(zone) && NewIds(tabs, requests)
    ensures var free := |Free(tabs, ZoneStart(zone), ZoneEnd(zone))|;
            CreateAll(tabs, requests, zone).OutOfRange? <==>
              |requests| > free && |Normal(tabs)| + free < MAX_TABS && (free > 0 || Wanting(tabs, zone) != {})
    decreases |requests|
  {
    if |requests| > 0 {
      var first := requests[0];
      ZoneCreateOutcome(tabs, first.id, first.url, zone);
      if Free(tabs, ZoneStart(zone), ZoneEnd(zone)) != {} {
        CreateCounts(tabs, first, zone);
        var next := Create(tabs, first.id, first.url, zone).tabs;
        RestIsNew(tabs, requests, next);
        CreateAllOverfills(next, requests[1..], zone);
      }
    }
  }

  function Creates(requests: seq<Request>, zone: int): seq<Op> {
    seq(|requests|, i requires 0 <= i < |requests| => NewTab(requests[i].id, requests[i].url, zone))
  }

  /** As long as none is refused, creating a list of tabs is a run of creates. */
  lemma {:induction false} CreateAllIsRun(tabs: Tabs, requests: seq<Request>, zone: int)
    requires !CreateAll(tabs, requests, zone).Refused?
    ensures Run(tabs, Creates(requests, zone)) == CreateAll(tabs, requests, zone)
    decreases |requests|
  {
    var ops := Creates(requests, zone);
    if |requests| > 0 && Create(tabs, requests[0].id, requests[0].url, zone).Placed? {
      assert ops[1..] == Creates(requests[1..], zone);
      CreateAllIsRun(Create(tabs, requests[0].id, requests[0].url, zone).tabs, requests[1..], zone);
    }
  }

  lemma CreatesAreFresh(requests: seq<Request>, zone: int)
    requires NewIds(map[], requests)
    ensures FreshIds({}, Creates(requests, zone))
  {
    var ops := Creates(requests, zone);
    forall i, j | 0 <= i < j < |ops| ensures ops[i].id != ops[j].id {
      assert ops[i].id == requests[i].id && ops[j].id == requests[j].id;
    }
  }

  lemma EmptyZone()
    ensures Inv(map[]) && |Normal(map[])| == 0
    ensures |Free(map[], ZoneStart(POS_BEGINNING), ZoneEnd(POS_BEGINNING))| == 6
  {
    var tabs: Tabs := map[];
    assert Free(tabs, ZoneStart(POS_BEGINNING), ZoneEnd(POS_BEGINNING)) == Interval(0, 5);
    assert Normal(tabs) == {};
  }

  /** From the empty browser, any six tabs fill the BEGINNING zone, and the seventh meets the out-of-range read. */
  lemma SevenTabsOverfill(requests: seq<Request>)
    requires NewIds(map[], requests) && |requests| == 7
    ensures var ops := Creates(requests, POS_BEGINNING);
            && FreshIds({}, ops)
            && Run(map[], ops[..6]).Placed?
            && Run(map[], ops).OutOfRange?
  {
    var ops, six := Creates(requests, POS_BEGINNING), requests[..6];
    EmptyZone();
    CreateAllOverfills(map[], requests, POS_BEGINNING);
    CreateAllIsRun(map[], requests, POS_BEGINNING);
    CreateAllIsDealt(map[], six, POS_BEGINNING);
    CreateAllIsRun(map[], six, POS_BEGINNING);
    assert ops[..6] == Creates(six, POS_BEGINNING);
    CreatesAreFresh(requests, POS_BEGINNING);
  }

  function SevenRequests(): seq<Request> {
    [Request("a", "u"), Request("b", "u"), Request("c", "u"), Request("d", "u"), Request("e", "u"), Request("f", "u"),
     Request("g", "u")]
  }

  /** The witness: a run of seven creates for the BEGINNING zone whose last one reads out of range. */
  lemma SeventhBeginningTab()
    ensures var ops := Creates(SevenRequests(), POS_BEGINNING);
            && FreshIds({}, ops)
            && Run(map[], ops[..6]).Placed?
            && Run(map[], ops).OutOfRange?
  {
    SevenTabsOverfill(SevenRequests());
  }

  lemma JoinedPermuted(tabs: Tabs, requests: seq<Request>, permuted: seq<Request>, zone: int)
    requires NewIds(tabs, requests) && NewIds(tabs, permuted) && Elements(requests) == Elements(permuted)
    ensures Joined(tabs, requests, zone) == Joined(tabs, permuted, zone)
  {
    JoinedContents(tabs, requests, zone);
    JoinedContents(tabs, permuted, zone);
    assert forall r :: r in requests <==> r in Elements(requests);
    assert forall r :: r in permuted <==> r in Elements(permuted);
    forall k | k in Joined(tabs, requests, zone) ensures Joined(tabs, requests, zone)[k] == Joined(tabs, permuted, zone)[k] {
      if k !in tabs {
        var r :| r in requests && r.id == k;
      }
    }
  }

  /** The same tabs in any other order end in the same table, or do not fit in either order. */
  lemma OrderDoesNotMatter(tabs: Tabs, requests: seq<Request>, permuted: seq<Request>, zone: int)
    requires Inv(tabs) && IsZone(zone) && NewIds(tabs, requests) && NewIds(tabs, permuted)
    requires multiset(requests) == multiset(permuted)
    ensures CreateAll(tabs, requests, zone).Placed? <==> CreateAll(tabs, permuted, zone).Placed?
    ensures CreateAll(tabs, requests, zone).Placed? ==>
              CreateAll(tabs, requests, zone) == CreateAll(tabs, permuted, zone)
  {
    MultisetElements(requests, permuted);
    if |requests| > 0 {
      CreateAllIsDealt(tabs, requests, zone);
      CreateAllIsDealt(tabs, permuted, zone);
      JoinedPermuted(tabs, requests, permuted, zone);
    }
  }

  /** `GetTabMap` is the exact inverse of the position map: a cell names a tab iff the tab stands there. */
  lemma TabMapIsInverse(tabs: Tabs)
    requires Inv(tabs)
    ensures forall p, id :: 0 <= p < MAX_TABS ==> (TabMap(tabs)[p] == At(id) <==> id in tabs && tabs[id].pos == p)
    ensures |set p | p in Interval(0, MAX_TABS - 1) && TabMap(tabs)[p] != Empty| == |Normal(tabs)|
  {
    var filled := set p | p in Interval(0, MAX_TABS - 1) && TabMap(tabs)[p] != Empty;
    var held := set k | k in Normal(tabs) :: tabs[k].pos;
    PositionsCount(tabs, Normal(tabs), held);
    forall p | p in filled ensures p in held {
      var k := TabMap(tabs)[p].id;
      assert k in tabs && tabs[k].pos == p && WellPlaced(tabs[k]);
    }
    forall p | p in held ensures p in filled {
      var k :| k in Normal(tabs) && tabs[k].pos == p;
      assert WellPlaced(tabs[k]);
      assert Held(tabs, p);
    }
    assert filled == held;
  }
}
