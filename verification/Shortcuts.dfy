/**
 The shortcut positions: `freeShortcutPositions`, `allocateShortcutPosition` and the two slots around them.
 */
module Shortcuts {
  import opened Ordering
  import opened TabPositions
  import opened ZoneAllocation
  import opened BrowserTabs

  datatype Shortcut = Shortcut(pref: int, pos: int)

  type Board = map<TabId, Shortcut>

  function MaxCount(configured: int): int {
    if configured < 1 then 1 else configured
  }

  // ---------- what a slot does to the positions ----------

  ghost predicate Taken(board: Board, pos: int) {
    exists id :: id in board && board[id].pos == pos
  }

  ghost function FreeSlots(board: Board, max: int): set<int> {
    set p | p in Interval(0, max - 1) && !Taken(board, p)
  }

  /** The position a new shortcut gets, -1 if none. */
  ghost function Position(board: Board, pref: int, max: int): int {
    var free := Ascending(FreeSlots(board, max), 0, max - 1);
    if |free| == 0 then -1
    else if 0 <= pref < max then (if pref in free then pref else -1)
    else free[0]
  }

  ghost function Add(board: Board, id: TabId, pref: int, max: int): Board {
    if |board| < max && Position(board, pref, max) >= 0 then board[id := Shortcut(pref, Position(board, pref, max))]
    else board
  }

  // ---------- the invariant and the capacity ----------

  ghost predicate BoardInv(board: Board, max: int) {
    && (forall id :: id in board ==> 0 <= board[id].pos < max)
    && (forall id :: id in board && 0 <= board[id].pref < max ==> board[id].pos == board[id].pref)
    && (forall a, b {:trigger board[a].pos, board[b].pos} :: a in board && b in board && a != b
          ==> board[a].pos != board[b].pos)
  }

  lemma HeldCount(board: Board, max: int, held: set<int>)
    requires BoardInv(board, max)
    requires held == set k | k in board :: board[k].pos
    ensures |held| == |board|
  {
    var f: TabId -> int := k => if k in board then board[k].pos else -1;
    assert forall b :: b in held ==> exists a :: a in board.Keys && f(a) == b;
    ImageSize(board.Keys, held, f);
  }

  lemma FreeCount(board: Board, max: int)
    requires BoardInv(board, max) && max >= 1
    ensures |Ascending(FreeSlots(board, max), 0, max - 1)| == |FreeSlots(board, max)| == max - |board|
  {
    var held := set k | k in board :: board[k].pos;
    HeldCount(board, max, held);
    var free, all := FreeSlots(board, max), Interval(0, max - 1);
    assert held <= all;
    assert free == all - held;
    assert |free| == |all| - |held|;
    AscendingSize(free, 0, max - 1);
  }

  /** Whether there is a position for a shortcut with this preference. */
  ghost predicate HasSlot(board: Board, pref: int, max: int) {
    if 0 <= pref < max then !Taken(board, pref) else |board| < max
  }

  lemma FreeMembers(board: Board, max: int, free: seq<int>)
    requires free == Ascending(FreeSlots(board, max), 0, max - 1)
    ensures forall p :: p in free <==> 0 <= p < max && !Taken(board, p)
    ensures forall p :: p in free ==> p in FreeSlots(board, max)
    ensures |free| > 0 ==> free[0] in free
  {
  }

  lemma PositionOutcome(board: Board, pref: int, max: int)
    requires BoardInv(board, max) && max >= 1
    ensures Position(board, pref, max) >= 0 <==> HasSlot(board, pref, max)
    ensures Position(board, pref, max) >= 0 ==>
              Position(board, pref, max) in FreeSlots(board, max) && |board| < max
  {
    FreeCount(board, max);
    var free := Ascending(FreeSlots(board, max), 0, max - 1);
    FreeMembers(board, max, free);
    assert |free| == 0 ==> |board| == max;
    if 0 <= pref < max && !Taken(board, pref) {
      assert pref in free;
    }
  }

  /** Without an in-range preference the smallest free position is taken, with one exactly that. */
  lemma PositionTaken(board: Board, pref: int, max: int)
    requires Position(board, pref, max) >= 0
    ensures var pos := Position(board, pref, max);
            && pos < max && !Taken(board, pos)
            && (if 0 <= pref < max then pos == pref else forall p :: 0 <= p < pos ==> Taken(board, p))
  {
    FreeMembers(board, max, Ascending(FreeSlots(board, max), 0, max - 1));
    SmallestFirst(FreeSlots(board, max), 0, max - 1);
    assert forall p :: 0 <= p < max ==> (p in FreeSlots(board, max) <==> !Taken(board, p));
  }

  /** A new shortcut is entered with its preference; nobody else's changes. */
  lemma AddFrame(board: Board, id: TabId, pref: int, max: int)
    requires id !in board
    ensures var after := Add(board, id, pref, max);
            if id in after then
              && after == board[id := after[id]] && after[id].pref == pref
              && 0 <= after[id].pos < max && !Taken(board, after[id].pos)
              && (if 0 <= pref < max then after[id].pos == pref
                  else forall p :: 0 <= p < after[id].pos ==> Taken(board, p))
            else after == board
  {
    if Position(board, pref, max) >= 0 {
      PositionTaken(board, pref, max);
    }
  }

  /**
   A shortcut without an in-range preference is added iff fewer than the maximum are live; one with an in-range
   preference iff that very position is free. Positions stay distinct and in range.
   */
  lemma AddOutcome(board: Board, id: TabId, pref: int, max: int)
    requires BoardInv(board, max) && id !in board && max >= 1
    ensures BoardInv(Add(board, id, pref, max), max)
    ensures id in Add(board, id, pref, max) <==> HasSlot(board, pref, max)
  {
    PositionOutcome(board, pref, max);
    var pos := Position(board, pref, max);
    if pos >= 0 {
      assert !Taken(board, pos);
      assert forall k :: k in board ==> board[k].pos != pos;
    }
  }

  datatype Op = NewShortcut(id: TabId, pref: int) | KillShortcut(id: TabId)

  ghost function Run(board: Board, ops: seq<Op>, max: int): Board
    decreases |ops|
  {
    if |ops| == 0 then board
    else
      var next := match ops[0]
                  case NewShortcut(id, pref) => Add(board, id, pref, max)
                  case KillShortcut(id) => board - {id};
      Run(next, ops[1..], max)
  }

  ghost predicate FreshIds(used: set<TabId>, ops: seq<Op>) {
    && (forall i :: 0 <= i < |ops| && ops[i].NewShortcut? ==> ops[i].id !in used)
    && (forall i, j :: 0 <= i < j < |ops| && ops[i].NewShortcut? && ops[j].NewShortcut? ==> ops[i].id != ops[j].id)
  }

  /** Over every run the positions are distinct, in range, and never more than the maximum are taken. */
  lemma {:induction false} RunKeepsBoard(board: Board, ops: seq<Op>, max: int)
    requires BoardInv(board, max) && FreshIds(board.Keys, ops) && max >= 1
    ensures BoardInv(Run(board, ops, max), max) && |Run(board, ops, max)| <= max
    decreases |ops|
  {
    if |ops| == 0 {
      FreeCount(board, max);
    } else {
      var next := match ops[0]
                  case NewShortcut(id, pref) => Add(board, id, pref, max)
                  case KillShortcut(id) => board - {id};
      if ops[0].NewShortcut? {
        AddOutcome(board, ops[0].id, ops[0].pref, max);
      }
      forall i | 0 <= i < |ops[1..]| && ops[1..][i].NewShortcut? ensures ops[1..][i].id !in next {
        assert ops[1..][i] == ops[i + 1];
      }
      RunKeepsBoard(next, ops[1..], max);
    }
  }

  // ---------- the browser's side ----------

  class ShortcutBoard {
    var shortcuts: Board
    const enabled: bool
    const maxCount: int

    ghost predicate Valid()
      reads this
    {
      maxCount >= 1 && BoardInv(shortcuts, maxCount)
    }

    constructor (enabled: bool, configured: int)
      ensures Valid() && shortcuts == map[] && this.enabled == enabled && maxCount == MaxCount(configured)
    {
      this.enabled := enabled;
      this.maxCount := MaxCount(configured);
      shortcuts := map[];
    }

    lemma TakenStep(board: Board, todo: set<TabId>, id: TabId)
      requires todo <= board.Keys && id in todo
      ensures forall p :: Taken(board - (todo - {id}), p) <==> Taken(board - todo, p) || board[id].pos == p
    {
      var board', board'' := board - todo, board - (todo - {id});
      assert board'' == board'[id := board[id]];
      forall p ensures Taken(board'', p) <==> Taken(board', p) || board[id].pos == p {
        if board[id].pos == p {
          assert board''[id].pos == p;
        } else if Taken(board', p) {
          var k :| k in board' && board'[k].pos == p;
          assert board''[k].pos == p;
        }
      }
    }

    method FreeShortcutPositions() returns (free: seq<int>)
      requires maxCount >= 1
      ensures free == Ascending(FreeSlots(shortcuts, maxCount), 0, maxCount - 1)
    {
      var occupied := new bool[maxCount](_ => false);
      var todo := shortcuts.Keys;
      while todo != {}
        invariant todo <= shortcuts.Keys
        invariant forall p :: 0 <= p < maxCount ==> (occupied[p] <==> Taken(shortcuts - todo, p))
        decreases |todo|
      {
        var id :| id in todo;
        var pos := shortcuts[id].pos;
        if 0 <= pos < maxCount {
          occupied[pos] := true;
        }
        TakenStep(shortcuts, todo, id);
        todo := todo - {id};
      }
      assert shortcuts - {} == shortcuts;
      free := Unoccupied(occupied, 0, maxCount - 1, FreeSlots(shortcuts, maxCount));
    }

    method AllocateShortcutPosition(pref: int) returns (pos: int)
      requires maxCount >= 1
      ensures pos == Position(shortcuts, pref, maxCount)
    {
      var free := FreeShortcutPositions();
      if |free| == 0 {
        return -1;
      }
      if 0 <= pref < maxCount {
        for i := 0 to |free|
          invariant pref !in free[..i]
        {
          if free[i] == pref {
            return pref;
          }
        }
        return -1;
      }
      pos := free[0];
    }

    method OnNewShortcut(pref: int, id: TabId) returns (result: ResultCode)
      requires Valid() && id !in shortcuts
      modifies this
      ensures Valid()
      ensures shortcuts == if enabled then Add(old(shortcuts), id, pref, maxCount) else old(shortcuts)
      ensures result == if id in shortcuts then OK else ExecError
    {
      if !enabled {
        return ExecError;
      }
      AddOutcome(shortcuts, id, pref, maxCount);
      result := ExecError;
      if |shortcuts| < maxCount {
        var pos := AllocateShortcutPosition(pref);
        if pos >= 0 {
          shortcuts := shortcuts[id := Shortcut(pref, pos)];
          result := OK;
        }
      }
    }

    method OnKillShortcut(id: TabId) returns (result: ResultCode)
      requires Valid()
      modifies this
      ensures Valid() && shortcuts == old(shortcuts) - {id}
      ensures result == if id in old(shortcuts) then OK else TabNotFound
    {
      if id in shortcuts {
        shortcuts := shortcuts - {id};
        result := OK;
      } else {
        result := TabNotFound;
      }
    }
  }
}
