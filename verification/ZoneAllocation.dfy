/**
 What a zone allocation promises: which positions it may deal, who gets which, and when it succeeds.
 */
module ZoneAllocation {
  import opened Ordering
  import opened TabPositions

  /** The three zones split the bar, from left to right, into 6, 6 and 8 positions. */
  lemma ZonesSplitTheBar(p: int, zone: int, other: int)
    requires 0 <= p < MAX_TABS && IsZone(zone) && IsZone(other)
    ensures InZone(p, POS_BEGINNING) || InZone(p, POS_MIDDLE) || InZone(p, POS_END)
    ensures InZone(p, zone) && InZone(p, other) ==> zone == other
    ensures ZoneEnd(POS_BEGINNING) < ZoneStart(POS_MIDDLE) <= ZoneEnd(POS_MIDDLE) < ZoneStart(POS_END)
    ensures |Interval(ZoneStart(zone), ZoneEnd(zone))| == if zone == POS_END then 8 else 6
  {
  }

  /** The preferences of the protocol and the positions they stand for. */
  lemma ZoneBounds(p: int)
    ensures InZone(p, -2) <==> 0 <= p <= 5
    ensures InZone(p, -3) <==> 6 <= p <= 11
    ensures InZone(p, -4) <==> 12 <= p <= 19
    ensures forall pref :: IsZone(pref) <==> -4 <= pref <= -2
    ensures MAX_TABS == 20 && POS_ANY == -1 && POS_EXTRA == -10
  {
  }

  // ---------- the invariant of the position table ----------

  ghost predicate WellPlaced(tab: Tab) {
    if tab.pref == POS_EXTRA then
      tab.pos == POS_EXTRA
    else
      && 0 <= tab.pos < MAX_TABS
      && (tab.pref == POS_ANY || (IsZone(tab.pref) && InZone(tab.pos, tab.pref)) || tab.pos == tab.pref)
  }

  ghost predicate NoSharedPosition(tabs: Tabs) {
    forall a, b {:trigger tabs[a].pos, tabs[b].pos} :: a in tabs && b in tabs && a != b ==> tabs[a].pos != tabs[b].pos
  }

  /** Inside the zone, position order is the order of (url, uuid). */
  ghost predicate ZoneSorted(tabs: Tabs, zone: int) {
    forall a, b {:trigger TabLess(tabs)(a, b)} ::
      a in tabs && b in tabs && tabs[a].pref == tabs[b].pref == zone && TabLess(tabs)(a, b)
      ==> tabs[a].pos < tabs[b].pos
  }

  ghost predicate Inv(tabs: Tabs) {
    && (forall id {:trigger WellPlaced(tabs[id])} :: id in tabs ==> WellPlaced(tabs[id]))
    && NoSharedPosition(tabs)
    && (forall zone {:trigger ZoneSorted(tabs, zone)} :: IsZone(zone) ==> ZoneSorted(tabs, zone))
  }

  /** A table just before the zone of `id` is dealt: `id` is new, or it is in its zone under a new URL. */
  ghost predicate AwaitsDeal(tabs: Tabs, id: TabId, zone: int) {
    && IsZone(zone) && id in tabs && tabs[id].pref == zone
    && (tabs[id].pos == -1 || InZone(tabs[id].pos, zone))
    && (forall k :: k in tabs && k != id ==> WellPlaced(tabs[k]))
    && NoSharedPosition(tabs)
    && (forall z {:trigger ZoneSorted(tabs, z)} :: IsZone(z) && z != zone ==> ZoneSorted(tabs, z))
  }

  ghost function Wanting(tabs: Tabs, zone: int): set<TabId> {
    set k | k in tabs && tabs[k].pref == zone
  }

  /** The zone without the positions held by tabs of other preferences. */
  ghost function Available(tabs: Tabs, zone: int): set<int> {
    set p | p in Interval(ZoneStart(zone), ZoneEnd(zone)) &&
            forall k :: k in tabs && tabs[k].pos == p ==> tabs[k].pref == zone
  }

  ghost function SlotsOf(tabs: Tabs, zone: int): seq<int> {
    Ascending(Available(tabs, zone), ZoneStart(zone), ZoneEnd(zone))
  }

  // ---------- the order of tabs ----------

  /** Tabs are ordered by URL, and by uuid only where the URLs are the same; both are decided at the first difference. */
  lemma KeyLessMeaning(url: string, id: TabId, url': string, id': TabId)
    ensures KeyLess(url, id, url', id') <==>
              || (exists i: nat :: FirstDifference(url, url', i))
              || (url == url' && exists i: nat :: FirstDifference(id, id', i))
  {
    StringLessMeaning(url, url');
    StringLessMeaning(id, id');
    StringLessIrreflexive(url);
  }

  lemma KeyOrder(tabs: Tabs)
    ensures StrictOrder(TabLess(tabs))
    ensures forall a, b :: a in tabs && b in tabs && a != b ==> TabLess(tabs)(a, b) || TabLess(tabs)(b, a)
  {
    var less := TabLess(tabs);
    forall a ensures !less(a, a) {
      StringLessIrreflexive(a);
    }
    forall a, b, c | less(a, b) && less(b, c) ensures less(a, c) {
      if tabs[a].url == tabs[b].url == tabs[c].url {
        StringLessTransitive(a, b, c);
      } else {
        StringLessIrreflexive(tabs[a].url);
        if tabs[a].url != tabs[b].url && tabs[b].url != tabs[c].url {
          StringLessTransitive(tabs[a].url, tabs[b].url, tabs[c].url);
        }
      }
    }
    forall a, b | a in tabs && b in tabs && a != b ensures less(a, b) || less(b, a) {
      StringLessTotal(tabs[a].url, tabs[b].url);
      StringLessTotal(a, b);
    }
  }

  /** `KeyOrder` in the form the rank lemmas ask for. */
  lemma GroupOrder(tabs: Tabs, group: set<TabId>)
    requires group <= tabs.Keys
    ensures StrictOrder(TabLess(tabs)) && TotalOn(TabLess(tabs), group)
  {
    KeyOrder(tabs);
  }

  // ---------- the pool ----------

  /** History-free: the candidates are the zone minus what tabs of other preferences hold. */
  lemma CandidatesAreAvailable(tabs: Tabs, id: TabId, zone: int)
    requires AwaitsDeal(tabs, id, zone)
    ensures Pooled(tabs, id, zone) == Wanting(tabs, zone)
    ensures Candidates(tabs, id, zone) == Available(tabs, zone)
  {
    var group := Pooled(tabs, id, zone);
    assert group == Wanting(tabs, zone);
    forall p | p in Available(tabs, zone) ensures p in Candidates(tabs, id, zone) {
      if Held(tabs, p) {
        var k :| k in tabs && tabs[k].pos == p;
        assert k in group && InZone(tabs[k].pos, zone);
      }
    }
    forall p | p in Candidates(tabs, id, zone) ensures p in Available(tabs, zone) {
      if k :| k in group && InZone(tabs[k].pos, zone) && tabs[k].pos == p {
        assert forall k' :: k' in tabs && tabs[k'].pos == p ==> k' == k;
      } else {
        assert p in Free(tabs, ZoneStart(zone), ZoneEnd(zone));
        assert !Held(tabs, p);
      }
    }
  }

  /** The first of an increasing listing is the smallest. */
  lemma SmallestFirst(s: set<int>, lo: int, hi: int)
    requires |Ascending(s, lo, hi)| > 0
    ensures var first := Ascending(s, lo, hi)[0];
            lo <= first <= hi && first in s && forall p :: lo <= p < first ==> p !in s
  {
    var r := Ascending(s, lo, hi);
    assert forall i :: 0 <= i < |r| ==> r[0] <= r[i];
    assert forall p :: p < r[0] ==> p !in r;
  }

  lemma AscendingSize(s: set<int>, lo: int, hi: int)
    requires s <= Interval(lo, hi)
    ensures |Ascending(s, lo, hi)| == |s|
    ensures Elements(Ascending(s, lo, hi)) == s
  {
    assert Elements(Ascending(s, lo, hi)) == s;
    ElementsSize(Ascending(s, lo, hi));
  }

  ghost function PositionOf(tabs: Tabs, k: TabId): int {
    if k in tabs then tabs[k].pos else 0
  }

  /** Tabs hold as many positions as there are tabs. */
  lemma PositionsCount(tabs: Tabs, group: set<TabId>, held: set<int>)
    requires NoSharedPosition(tabs) && group <= tabs.Keys
    requires held == set k | k in group :: tabs[k].pos
    ensures |held| == |group|
  {
    var f: TabId -> int := k => PositionOf(tabs, k);
    assert forall b :: b in held ==> exists a :: a in group && f(a) == b;
    ImageSize(group, held, f);
  }

  ghost function Seated(tabs: Tabs, zone: int): set<TabId> {
    set k | k in Wanting(tabs, zone) && InZone(tabs[k].pos, zone)
  }

  lemma SeatedSize(tabs: Tabs, id: TabId, zone: int)
    requires AwaitsDeal(tabs, id, zone)
    ensures |Seated(tabs, zone)| == |Wanting(tabs, zone)| - (if tabs[id].pos == -1 then 1 else 0)
  {
    if tabs[id].pos == -1 {
      assert Wanting(tabs, zone) == Seated(tabs, zone) + {id};
    } else {
      assert Wanting(tabs, zone) == Seated(tabs, zone);
    }
  }

  /** How many positions there are to deal, and to how many tabs. */
  lemma PoolSize(tabs: Tabs, id: TabId, zone: int)
    requires AwaitsDeal(tabs, id, zone)
    ensures |SlotsOf(tabs, zone)| == |Wanting(tabs, zone)|
              + |Free(tabs, ZoneStart(zone), ZoneEnd(zone))| - (if tabs[id].pos == -1 then 1 else 0)
  {
    var free := Free(tabs, ZoneStart(zone), ZoneEnd(zone));
    var held := set k | k in Seated(tabs, zone) :: tabs[k].pos;
    PositionsCount(tabs, Seated(tabs, zone), held);
    assert Available(tabs, zone) == held + free by {
      CandidatesAreAvailable(tabs, id, zone);
      assert held == (set k | k in Pooled(tabs, id, zone) && InZone(tabs[k].pos, zone) :: tabs[k].pos);
    }
    assert held !! free;
    AscendingSize(Available(tabs, zone), ZoneStart(zone), ZoneEnd(zone));
    SeatedSize(tabs, id, zone);
  }

  /**
   When a zone allocation succeeds. A tab already in the zone is always placed. A new one is placed iff a position
   of the zone is free; if none is, it is refused when nobody of its preference is there, and otherwise there is one
   page more than candidates, so the dealing loop leaves the candidate list.
   */
  lemma ZoneOutcome(tabs: Tabs, id: TabId, zone: int)
    requires AwaitsDeal(tabs, id, zone)
    ensures var full := Free(tabs, ZoneStart(zone), ZoneEnd(zone)) == {};
            var alone := Wanting(tabs, zone) == {id};
            && (AllocateZone(tabs, id, zone).Placed? <==> tabs[id].pos != -1 || !full)
            && (AllocateZone(tabs, id, zone).Refused? <==> tabs[id].pos == -1 && full && alone)
            && (AllocateZone(tabs, id, zone).OutOfRange? <==> tabs[id].pos == -1 && full && !alone)
  {
    CandidatesAreAvailable(tabs, id, zone);
    PoolSize(tabs, id, zone);
    var want := Wanting(tabs, zone);
    assert id in want;
    SubsetSize({id}, want);
  }

  // ---------- the deal ----------

  /** A deal of the available positions of a zone to all tabs that want it. */
  ghost function Dealt(tabs: Tabs, zone: int): Tabs
    requires |Wanting(tabs, zone)| <= |SlotsOf(tabs, zone)|
  {
    Deal(tabs, Wanting(tabs, zone), SlotsOf(tabs, zone), zone)
  }

  lemma PlacedIsDealt(tabs: Tabs, id: TabId, zone: int)
    requires AwaitsDeal(tabs, id, zone)
    ensures AllocateZone(tabs, id, zone).Placed? ==>
              && |Wanting(tabs, zone)| <= |SlotsOf(tabs, zone)|
              && AllocateZone(tabs, id, zone).tabs == Dealt(tabs, zone)
  {
    CandidatesAreAvailable(tabs, id, zone);
  }

  /** A deal keeps who is there, every URL and preference, and every tab of another preference. */
  lemma DealFrame(tabs: Tabs, zone: int)
    requires |Wanting(tabs, zone)| <= |SlotsOf(tabs, zone)|
    ensures var dealt := Dealt(tabs, zone);
            && dealt.Keys == tabs.Keys
            && (forall k :: k in tabs ==> dealt[k].url == tabs[k].url && dealt[k].pref == tabs[k].pref)
            && (forall k :: k in tabs && tabs[k].pref != zone ==> dealt[k] == tabs[k])
  {
  }

  ghost function Skip(tabs: Tabs, zone: int): int {
    if zone == POS_END then |SlotsOf(tabs, zone)| - |Wanting(tabs, zone)| else 0
  }

  /** Whose turn it is: the rank of a tab among those that want the zone. */
  ghost function Turn(tabs: Tabs, zone: int, k: TabId): nat {
    Rank(TabLess(tabs), Wanting(tabs, zone), k)
  }

  lemma SlotIsAvailable(tabs: Tabs, zone: int, i: nat)
    requires i < |SlotsOf(tabs, zone)|
    ensures SlotAt(SlotsOf(tabs, zone), i) == SlotsOf(tabs, zone)[i] && SlotsOf(tabs, zone)[i] in Available(tabs, zone)
  {
  }

  lemma TurnInGroup(tabs: Tabs, zone: int, k: TabId)
    requires k in Wanting(tabs, zone)
    ensures Turn(tabs, zone, k) < |Wanting(tabs, zone)|
  {
    GroupOrder(tabs, Wanting(tabs, zone));
    RankBelowSize(TabLess(tabs), Wanting(tabs, zone), k);
  }

  lemma DealPosition(tabs: Tabs, zone: int, k: TabId)
    requires |Wanting(tabs, zone)| <= |SlotsOf(tabs, zone)|
    requires k in Wanting(tabs, zone)
    ensures Turn(tabs, zone, k) < |Wanting(tabs, zone)|
    ensures Dealt(tabs, zone)[k].pos == SlotsOf(tabs, zone)[Skip(tabs, zone) + Turn(tabs, zone, k)]
    ensures Dealt(tabs, zone)[k].pos in Available(tabs, zone)
  {
    TurnInGroup(tabs, zone, k);
    var i := Skip(tabs, zone) + Turn(tabs, zone, k);
    SlotIsAvailable(tabs, zone, i);
    assert Dealt(tabs, zone)[k] == tabs[k].(pos := SlotAt(SlotsOf(tabs, zone), i));
  }

  /** In a dealt zone the tab order is the position order. */
  lemma DealFollowsOrder(tabs: Tabs, zone: int, a: TabId, b: TabId)
    requires |Wanting(tabs, zone)| <= |SlotsOf(tabs, zone)|
    requires a in Wanting(tabs, zone) && b in Wanting(tabs, zone) && TabLess(tabs)(a, b)
    ensures Dealt(tabs, zone)[a].pos < Dealt(tabs, zone)[b].pos
  {
    GroupOrder(tabs, Wanting(tabs, zone));
    RankFollowsOrder(TabLess(tabs), Wanting(tabs, zone), a, b);
    DealPosition(tabs, zone, a);
    DealPosition(tabs, zone, b);
  }

  /** A dealt zone is sorted, and nothing else about the order has changed. */
  lemma DealSorted(tabs: Tabs, zone: int)
    requires |Wanting(tabs, zone)| <= |SlotsOf(tabs, zone)|
    ensures ZoneSorted(Dealt(tabs, zone), zone)
    ensures forall z :: z != zone && ZoneSorted(tabs, z) ==> ZoneSorted(Dealt(tabs, zone), z)
  {
    DealFrame(tabs, zone);
    var dealt := Dealt(tabs, zone);
    assert forall a, b :: TabLess(dealt)(a, b) <==> TabLess(tabs)(a, b);
    forall a, b | a in dealt && b in dealt && dealt[a].pref == dealt[b].pref == zone && TabLess(dealt)(a, b)
      ensures dealt[a].pos < dealt[b].pos
    {
      DealFollowsOrder(tabs, zone, a, b);
    }
  }

  lemma DealApart(tabs: Tabs, id: TabId, zone: int, a: TabId, b: TabId)
    requires AwaitsDeal(tabs, id, zone)
    requires |Wanting(tabs, zone)| <= |SlotsOf(tabs, zone)|
    requires a in tabs && b in tabs && a != b && a in Wanting(tabs, zone)
    ensures Dealt(tabs, zone)[a].pos != Dealt(tabs, zone)[b].pos
  {
    DealFrame(tabs, zone);
    DealPosition(tabs, zone, a);
    if b in Wanting(tabs, zone) {
      GroupOrder(tabs, Wanting(tabs, zone));
      if TabLess(tabs)(a, b) {
        DealFollowsOrder(tabs, zone, a, b);
      } else {
        DealFollowsOrder(tabs, zone, b, a);
      }
    }
  }

  lemma DealWellPlaced(tabs: Tabs, id: TabId, zone: int, k: TabId)
    requires AwaitsDeal(tabs, id, zone)
    requires |Wanting(tabs, zone)| <= |SlotsOf(tabs, zone)|
    requires k in tabs
    ensures WellPlaced(Dealt(tabs, zone)[k])
  {
    DealFrame(tabs, zone);
    if k in Wanting(tabs, zone) {
      DealPosition(tabs, zone, k);
    }
  }

  /** After a deal the position table is in order again. */
  lemma DealRestoresInv(tabs: Tabs, id: TabId, zone: int)
    requires AwaitsDeal(tabs, id, zone)
    requires |Wanting(tabs, zone)| <= |SlotsOf(tabs, zone)|
    ensures Inv(Dealt(tabs, zone))
  {
    var dealt := Dealt(tabs, zone);
    DealFrame(tabs, zone);
    forall k | k in dealt ensures WellPlaced(dealt[k]) {
      DealWellPlaced(tabs, id, zone, k);
    }
    forall a, b | a in dealt && b in dealt && a != b ensures dealt[a].pos != dealt[b].pos {
      if a in Wanting(tabs, zone) {
        DealApart(tabs, id, zone, a, b);
      } else if b in Wanting(tabs, zone) {
        DealApart(tabs, id, zone, b, a);
      }
    }
    DealSorted(tabs, zone);
  }

  // ---------- the packing ----------

  ghost function Below(s: set<int>, p: int): nat { |set q | q in s && q < p| }

  ghost function Above(s: set<int>, p: int): nat { |set q | q in s && q > p| }

  lemma {:induction false} BelowIsIndex(r: seq<int>, i: nat)
    requires forall i, j :: 0 <= i < j < |r| ==> r[i] < r[j]
    requires i < |r|
    ensures Below(Elements(r), r[i]) == i
  {
    var below := set q | q in Elements(r) && q < r[i];
    forall q | q in below ensures q in r[..i] {
      var k :| 0 <= k < |r| && r[k] == q;
      assert r[..i][k] == q;
    }
    assert below == Elements(r[..i]);
    ElementsSize(r[..i]);
  }

  lemma BelowAndAbove(s: set<int>, p: int)
    requires p in s
    ensures Below(s, p) + 1 + Above(s, p) == |s|
  {
    var below, above := (set q | q in s && q < p), (set q | q in s && q > p);
    assert s == below + {p} + above;
  }

  lemma TurnTaken(tabs: Tabs, zone: int, i: nat) returns (k: TabId)
    requires i < |Wanting(tabs, zone)|
    ensures k in Wanting(tabs, zone) && Turn(tabs, zone, k) == i
  {
    GroupOrder(tabs, Wanting(tabs, zone));
    k := RankTaken(TabLess(tabs), Wanting(tabs, zone), i);
  }

  lemma SlotHeld(tabs: Tabs, zone: int, j: nat)
    requires |Wanting(tabs, zone)| <= |SlotsOf(tabs, zone)|
    requires j < |SlotsOf(tabs, zone)|
    ensures Held(Dealt(tabs, zone), SlotsOf(tabs, zone)[j]) <==>
              (Skip(tabs, zone) <= j < Skip(tabs, zone) + |Wanting(tabs, zone)|)
  {
    var dealt, group, p := Dealt(tabs, zone), Wanting(tabs, zone), SlotsOf(tabs, zone)[j];
    DealFrame(tabs, zone);
    if Skip(tabs, zone) <= j < Skip(tabs, zone) + |group| {
      var k := TurnTaken(tabs, zone, j - Skip(tabs, zone));
      DealPosition(tabs, zone, k);
      assert dealt[k].pos == p;
    } else if Held(dealt, p) {
      var k :| k in dealt && dealt[k].pos == p;
      assert k in group;
      DealPosition(tabs, zone, k);
    }
  }

  /**
   The packing: of the available positions, the tabs of the zone hold exactly the first k, in the END zone exactly
   the last k. So no free position of the zone precedes (for END: follows) any of them.
   */
  lemma ZoneIsPacked(tabs: Tabs, id: TabId, zone: int, p: int)
    requires AwaitsDeal(tabs, id, zone)
    requires |Wanting(tabs, zone)| <= |SlotsOf(tabs, zone)|
    requires p in Available(tabs, zone)
    ensures var rank := if zone == POS_END then Above(Available(tabs, zone), p) else Below(Available(tabs, zone), p);
            Held(Dealt(tabs, zone), p) <==> rank < |Wanting(tabs, zone)|
  {
    var slots := SlotsOf(tabs, zone);
    AscendingSize(Available(tabs, zone), ZoneStart(zone), ZoneEnd(zone));
    var j :| 0 <= j < |slots| && slots[j] == p;
    BelowIsIndex(slots, j);
    BelowAndAbove(Available(tabs, zone), p);
    SlotHeld(tabs, zone, j);
  }
}
