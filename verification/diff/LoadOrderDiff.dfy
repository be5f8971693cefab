/** The "Compare Load Orders" dialog: two list widgets that are filled, labelled and lined up in place. */
module LoadOrderDiff {
  import opened Options
  import opened EditScripts
  import opened EditGraph
  import opened GreedyScripts
  import opened ShortestPath
  import opened Backtrack
  import opened Optimality
  import opened Alignment

  /** A list widget is its sequence of rows; a row's text and label stand for an item and its data. */
  class ListWidget {
    var rows: seq<Row>

    constructor ()
      ensures rows == []
    {
      rows := [];
    }

    method Fill(texts: seq<string>)
      modifies this
      ensures rows == Plain(texts)
    {
      rows := [];
      for i := 0 to |texts|
        invariant rows == Plain(texts[..i])
      {
        PlainOfAppend(texts[..i], texts[i]);
        assert texts[..i + 1] == texts[..i] + [texts[i]];
        rows := rows + [Row(texts[i], Unset)];
      }
      assert texts[..|texts|] == texts;
    }

    method SetState(i: int, state: DiffState)
      requires 0 <= i < |rows|
      modifies this
      ensures rows == old(rows)[i := Row(old(rows)[i].text, state)]
    {
      rows := rows[i := rows[i].(state := state)];
    }

    method InsertBlankLine(i: int)
      requires 0 <= i <= |rows|
      modifies this
      ensures rows == old(rows)[..i] + [BLANK] + old(rows)[i..]
    {
      rows := rows[..i] + [BLANK] + rows[i..];
    }
  }

  /** Rows as they are when first added: not labelled. */
  function Plain(texts: seq<string>): (r: seq<Row>)
    ensures |r| == |texts| && forall i :: 0 <= i < |r| ==> r[i] == Row(texts[i], Unset)
  {
    seq(|texts|, i requires 0 <= i < |texts| => Row(texts[i], Unset))
  }

  lemma PlainOfAppend(texts: seq<string>, t: string)
    ensures Plain(texts + [t]) == Plain(texts) + [Row(t, Unset)]
  {
  }

  method AreLabelsEqual(rows1: seq<Row>, rows2: seq<Row>) returns (equal: bool)
    ensures equal <==> Texts(rows1) == Texts(rows2)
  {
    if |rows1| != |rows2| {
      assert |Texts(rows1)| != |Texts(rows2)|;
      return false;
    }
    for i := 0 to |rows1|
      invariant forall j :: 0 <= j < i ==> rows1[j].text == rows2[j].text
    {
      if rows1[i].text != rows2[i].text {
        assert Texts(rows1)[i] != Texts(rows2)[i];
        return false;
      }
    }
    return true;
  }

  /** The first i rows of list 1 and j rows of list 2 are final, and the rest remains to be lined up. */
  ghost predicate LinedUpTo(goal: (seq<Row>, seq<Row>), rows1: seq<Row>, rows2: seq<Row>, i: int, j: int) {
    0 <= i <= |rows1| && 0 <= j <= |rows2| && j <= i && (j == i || j == |rows2|) &&
    goal.0 == rows1[..i] + Align(rows1[i..], rows2[j..]).0 &&
    goal.1 == rows2[..j] + Align(rows1[i..], rows2[j..]).1
  }

  function Pad(rows: seq<Row>, i: nat): seq<Row>
    requires i <= |rows|
  {
    rows[..i] + [BLANK] + rows[i..]
  }

  /** One turn of the loop at a row that both lists have. */
  lemma LineUpOneRow(goal: (seq<Row>, seq<Row>), rows1: seq<Row>, rows2: seq<Row>, i: nat)
    requires LinedUpTo(goal, rows1, rows2, i, i) && i < |rows1| && i < |rows2|
    ensures var pad2 := rows1[i].state == Removed && rows2[i].state != Inserted;
            var pad1 := rows1[i].state != Removed && rows2[i].state == Inserted;
            LinedUpTo(goal, if pad1 then Pad(rows1, i) else rows1, if pad2 then Pad(rows2, i) else rows2, i + 1, i + 1)
  {
    var pad2 := rows1[i].state == Removed && rows2[i].state != Inserted;
    var pad1 := rows1[i].state != Removed && rows2[i].state == Inserted;
    AlignHeads(rows1, rows2, i);
    hide Align;
    var rest := Align(if pad1 then rows1[i..] else rows1[i + 1..], if pad2 then rows2[i..] else rows2[i + 1..]);
    TurnOfList(goal.0, rows1, i, pad1, rest.0);
    TurnOfList(goal.1, rows2, i, pad2, rest.1);
  }

  lemma AlignHeads(rows1: seq<Row>, rows2: seq<Row>, i: nat)
    requires i < |rows1| && i < |rows2|
    ensures var pad2 := rows1[i].state == Removed && rows2[i].state != Inserted;
            var pad1 := rows1[i].state != Removed && rows2[i].state == Inserted;
            Align(rows1[i..], rows2[i..]) ==
            Put(if pad1 then BLANK else rows1[i], if pad2 then BLANK else rows2[i],
                Align(if pad1 then rows1[i..] else rows1[i + 1..], if pad2 then rows2[i..] else rows2[i + 1..]))
  {
  }

  lemma TurnOfList(goal: seq<Row>, rows: seq<Row>, i: nat, pad: bool, rest: seq<Row>)
    requires i < |rows| && goal == rows[..i] + ([if pad then BLANK else rows[i]] + rest)
    ensures var rows' := if pad then Pad(rows, i) else rows;
            i + 1 <= |rows'| && goal == rows'[..i + 1] + rest &&
            rows'[i + 1..] == if pad then rows[i..] else rows[i + 1..]
  {
  }

  /** Past the end of list 2 the loop only walks. */
  lemma WalkOneRow(goal: (seq<Row>, seq<Row>), rows1: seq<Row>, rows2: seq<Row>, i: nat)
    requires LinedUpTo(goal, rows1, rows2, i, |rows2|) && i < |rows1|
    ensures LinedUpTo(goal, rows1, rows2, i + 1, |rows2|)
  {
  }

  /** Pads the lists in place while walking the first one, which grows as it goes. */
  method AlignUnchangedRows(list1: ListWidget, list2: ListWidget)
    requires list1 != list2
    modifies list1, list2
    ensures (list1.rows, list2.rows) == Align(old(list1.rows), old(list2.rows))
  {
    hide Align;
    ghost var goal := Align(list1.rows, list2.rows);
    var i := 0;
    ghost var j := 0;
    while i < |list1.rows|
      invariant LinedUpTo(goal, list1.rows, list2.rows, i, j)
      decreases |list1.rows| - i + |list2.rows| - j
    {
      if i >= |list2.rows| {
        WalkOneRow(goal, list1.rows, list2.rows, i);
      } else {
        LineUpOneRow(goal, list1.rows, list2.rows, i);
        var state1 := list1.rows[i].state;
        var state2 := list2.rows[i].state;
        if state1 == Removed && state2 != Inserted {
          list2.InsertBlankLine(i);
        }
        if state1 != Removed && state2 == Inserted {
          list1.InsertBlankLine(i);
        }
        j := j + 1;
      }
      i := i + 1;
    }
    NothingLeft(goal, list1.rows, list2.rows, j);
  }

  lemma NothingLeft(goal: (seq<Row>, seq<Row>), rows1: seq<Row>, rows2: seq<Row>, j: int)
    requires LinedUpTo(goal, rows1, rows2, |rows1|, j)
    ensures goal == (rows1, rows2)
  {
    assert rows1[..|rows1|] + [] == rows1 && rows1[|rows1|..] == [] && rows2[..j] + rows2[j..] == rows2;
  }

  // --- Labelling ------------------------------------------------------------------------

  /** From (x, y) on, both lists are labelled as script s says. */
  ghost predicate LabelledFrom(s: seq<Edit>, x: int, y: int, rows1: seq<Row>, rows2: seq<Row>) {
    0 <= x <= |rows1| && 0 <= y <= |rows2| &&
    Run(s, Texts(rows1)[x..]) == Some(Texts(rows2)[y..]) &&
    rows1[x..] == Left(s, Texts(rows1)[x..]) && rows2[y..] == Right(s, Texts(rows1)[x..])
  }

  function Mark(rows: seq<Row>, i: int, state: DiffState): (r: seq<Row>)
    requires 0 <= i < |rows|
    ensures Texts(r) == Texts(rows)
  {
    rows[i := Row(rows[i].text, state)]
  }

  lemma MarkTail(rows: seq<Row>, i: int, state: DiffState)
    requires 0 <= i < |rows|
    ensures Mark(rows, i, state)[i..] == [Row(rows[i].text, state)] + rows[i + 1..]
    ensures Texts(rows)[i..] == [rows[i].text] + Texts(rows)[i + 1..]
  {
  }

  lemma MarkInserted(s: seq<Edit>, x: int, y: int, rows1: seq<Row>, rows2: seq<Row>)
    requires y > 0 && LabelledFrom(s, x, y, rows1, rows2)
    ensures LabelledFrom([Insert(rows2[y - 1].text)] + s, x, y - 1, rows1, Mark(rows2, y - 1, Inserted))
  {
    MarkTail(rows2, y - 1, Inserted);
    assert ([Insert(rows2[y - 1].text)] + s)[1..] == s;
  }

  lemma MarkRemoved(s: seq<Edit>, x: int, y: int, rows1: seq<Row>, rows2: seq<Row>)
    requires x > 0 && LabelledFrom(s, x, y, rows1, rows2)
    ensures LabelledFrom([Edit.Remove] + s, x - 1, y, Mark(rows1, x - 1, Removed), rows2)
  {
  }

  lemma MarkUnchanged(s: seq<Edit>, x: int, y: int, rows1: seq<Row>, rows2: seq<Row>)
    requires x > 0 && y > 0 && LabelledFrom(s, x, y, rows1, rows2) && rows1[x - 1].text == rows2[y - 1].text
    ensures LabelledFrom([Keep] + s, x - 1, y - 1, Mark(rows1, x - 1, Unchanged), Mark(rows2, y - 1, Unchanged))
  {
    MarkTail(rows1, x - 1, Unchanged);
    MarkTail(rows2, y - 1, Unchanged);
    assert ([Keep] + s)[1..] == s;
  }

  /** A prefix of the moves is a chain of its own, from where the next move ends. */
  lemma {:induction false} PrefixOfChain(a: seq<string>, b: seq<string>, moves: seq<Move>, x: int, y: int, i: int)
    requires LeadsToEnd(a, b, moves, x, y) && 0 <= i < |moves|
    ensures IsStep(a, b, moves[i]) && LeadsToEnd(a, b, moves[..i], moves[i].x, moves[i].y)
    ensures LeadsToEnd(a, b, moves[..i + 1], moves[i].prevX, moves[i].prevY)
    ensures ScriptOf(b, moves[..i + 1]) == [EditOf(b, moves[i])] + ScriptOf(b, moves[..i])
    decreases |moves|
  {
    var last := moves[|moves| - 1];
    assert moves[..|moves|] == moves;
    assert moves[..i + 1][..i] == moves[..i];
    if i < |moves| - 1 {
      PrefixOfChain(a, b, moves[..|moves| - 1], last.x, last.y, i);
      assert moves[..|moves| - 1][..i] == moves[..i] && moves[..|moves| - 1][..i + 1] == moves[..i + 1];
    }
  }

  /** Where the chain stands after its first i moves. */
  function After(a: seq<string>, b: seq<string>, moves: seq<Move>, i: int): (int, int)
    requires 0 <= i <= |moves|
  {
    if i == 0 then (|a|, |b|) else (moves[i - 1].prevX, moves[i - 1].prevY)
  }

  lemma AfterIsWhereNextEnds(a: seq<string>, b: seq<string>, moves: seq<Move>, i: int)
    requires LeadsToEnd(a, b, moves, 0, 0) && 0 <= i <= |moves|
    ensures i < |moves| ==> After(a, b, moves, i) == (moves[i].x, moves[i].y)
    ensures i == |moves| ==> After(a, b, moves, i) == (0, 0)
  {
    if i < |moves| {
      PrefixOfChain(a, b, moves, 0, 0, i);
      if i > 0 {
        assert moves[..i][i - 1] == moves[i - 1];
      }
    }
  }

  /** One move's worth of labelling. */
  method LabelMove(list1: ListWidget, list2: ListWidget, m: Move, ghost s: seq<Edit>)
    requires list1 != list2
    requires IsStep(Texts(list1.rows), Texts(list2.rows), m) && LabelledFrom(s, m.x, m.y, list1.rows, list2.rows)
    modifies list1, list2
    ensures Texts(list1.rows) == old(Texts(list1.rows)) && Texts(list2.rows) == old(Texts(list2.rows))
    ensures LabelledFrom([EditOf(old(Texts(list2.rows)), m)] + s, m.prevX, m.prevY, list1.rows, list2.rows)
  {
    hide LabelledFrom;
    if m.x == m.prevX {
      MarkInserted(s, m.x, m.y, list1.rows, list2.rows);
      list2.SetState(m.prevY, Inserted);
    } else if m.y == m.prevY {
      MarkRemoved(s, m.x, m.y, list1.rows, list2.rows);
      list1.SetState(m.prevX, Removed);
    } else {
      MarkUnchanged(s, m.x, m.y, list1.rows, list2.rows);
      list1.SetState(m.prevX, Unchanged);
      list2.SetState(m.prevY, Unchanged);
    }
  }

  /** What the dialog shows for two different lists: the labels of the greedy cheapest script, lined up. */
  ghost predicate ShowsDiff(s: seq<Edit>, a: seq<string>, b: seq<string>, rows1: seq<Row>, rows2: seq<Row>) {
    IsCheapest(s, a, b) && IsGreedy(s, a, b) && (rows1, rows2) == Align(Left(s, a), Right(s, a))
  }

  /** Labels both lists by the moves of a path, row by row from the back. */
  method LabelRows(list1: ListWidget, list2: ListWidget, moves: seq<Move>)
    requires list1 != list2
    requires LeadsToEnd(Texts(list1.rows), Texts(list2.rows), moves, 0, 0)
    modifies list1, list2
    ensures Texts(list1.rows) == old(Texts(list1.rows)) && Texts(list2.rows) == old(Texts(list2.rows))
    ensures LabelledFrom(ScriptOf(Texts(list2.rows), moves), 0, 0, list1.rows, list2.rows)
  {
    ghost var a, b := Texts(list1.rows), Texts(list2.rows);
    assert LabelledFrom([], |a|, |b|, list1.rows, list2.rows) by {
      assert a[|a|..] == [] && b[|b|..] == [];
    }
    hide LabelledFrom, LeadsToEnd, IsStep, EditOf;
    for i := 0 to |moves|
      invariant Texts(list1.rows) == a && Texts(list2.rows) == b
      invariant LabelledFrom(ScriptOf(b, moves[..i]), After(a, b, moves, i).0, After(a, b, moves, i).1,
                             list1.rows, list2.rows)
    {
      AfterIsWhereNextEnds(a, b, moves, i);
      PrefixOfChain(a, b, moves, 0, 0, i);
      LabelMove(list1, list2, moves[i], ScriptOf(b, moves[..i]));
    }
    AfterIsWhereNextEnds(a, b, moves, |moves|);
    assert moves[..|moves|] == moves;
  }

  /** Highlights how the second list differs from the first, using as few insertions and deletions as can be. */
  method DiffLists(list1: ListWidget, list2: ListWidget)
    requires list1 != list2
    modifies list1, list2
    ensures old(Texts(list1.rows)) == old(Texts(list2.rows)) ==>
              list1.rows == old(list1.rows) && list2.rows == old(list2.rows)
    ensures old(Texts(list1.rows)) != old(Texts(list2.rows)) ==>
              exists s :: ShowsDiff(s, old(Texts(list1.rows)), old(Texts(list2.rows)), list1.rows, list2.rows)
  {
    var equal := AreLabelsEqual(list1.rows, list2.rows);
    if equal {
      return;
    }
    ghost var a, b := Texts(list1.rows), Texts(list2.rows);
    var trace := TraceShortestPath(Texts(list1.rows), Texts(list2.rows));
    var moves := BacktrackTrace(Texts(list1.rows), Texts(list2.rows), trace);
    LabelRows(list1, list2, moves);
    ghost var s := ScriptOf(b, moves);
    ScriptIsCheapest(a, b, trace, moves);
    assert list1.rows == Left(s, a) && list2.rows == Right(s, a) by {
      assert a[0..] == a && b[0..] == b;
      assert list1.rows[0..] == list1.rows && list2.rows[0..] == list2.rows;
    }
    AlignUnchangedRows(list1, list2);
    assert ShowsDiff(s, a, b, list1.rows, list2.rows);
  }

  lemma ScriptIsCheapest(a: seq<string>, b: seq<string>, trace: seq<seq<int>>, moves: seq<Move>)
    requires IsShortestTrace(a, b, trace) && LeadsToEnd(a, b, moves, 0, 0)
    requires Cost(ScriptOf(b, moves)) == |trace| - 1
    ensures IsCheapest(ScriptOf(b, moves), a, b)
  {
    ChainIsScript(a, b, moves, 0, 0);
    assert a[0..] == a && b[0..] == b;
    hide Run, Cost, Reach, IsTrace;
    forall t | Run(t, a) == Some(b) ensures |trace| - 1 <= Cost(t) {
      NoCheaperScript(a, b, |trace| - 1, t);
    }
  }

  /** Fills the two lists of the dialog and highlights their differences. */
  method SetLoadOrders(list1: ListWidget, list2: ListWidget, current: seq<string>, sorted: seq<string>)
    requires list1 != list2
    modifies list1, list2
    ensures current == sorted ==> list1.rows == Plain(current) && list2.rows == Plain(sorted)
    ensures current != sorted ==> exists s :: ShowsDiff(s, current, sorted, list1.rows, list2.rows)
  {
    list1.Fill(current);
    list2.Fill(sorted);
    assert Texts(Plain(current)) == current && Texts(Plain(sorted)) == sorted;
    DiffLists(list1, list2);
  }

  /**
   * What a reader of the dialog can rely on. Taking away the padding gives back both load
   * orders in full, labelled without gaps; the unchanged rows of the two spell the same common
   * subsequence, none is longer, and they face each other.
   */
  lemma DiffIsReadable(s: seq<Edit>, a: seq<string>, b: seq<string>, rows1: seq<Row>, rows2: seq<Row>)
    requires ShowsDiff(s, a, b, rows1, rows2)
    ensures Texts(StripPadding(rows1)) == a && OnlyStates(StripPadding(rows1), Removed, Unchanged)
    ensures Texts(StripPadding(rows2)) == b && OnlyStates(StripPadding(rows2), Inserted, Unchanged)
    ensures LinedUp(rows1, rows2) && IsTidy(rows1, rows2)
    ensures var c := TextsOf(StripPadding(rows1), Unchanged);
            c == TextsOf(StripPadding(rows2), Unchanged) && IsSubsequence(c, a) && IsSubsequence(c, b) &&
            forall other :: IsSubsequence(other, a) && IsSubsequence(other, b) ==> |other| <= |c|
  {
    hide IsGreedy, IsTidy;
    LeftIsPartitioned(s, a);
    RightIsPartitioned(s, a);
    AlignAddsOnlyPadding(Left(s, a), Right(s, a));
    AlignLinesUp(Left(s, a), Right(s, a));
    AlignIsTidy(Left(s, a), Right(s, a));
    KeptIsCommon(s, a, b);
    hide IsSubsequence;
    forall other | IsSubsequence(other, a) && IsSubsequence(other, b) ensures |other| <= |Kept(s, a)| {
      CheapestKeepsLongest(s, a, b, other);
    }
  }

  /** The two load orders alone decide what is shown, whatever way there is of finding it. */
  lemma DiffIsUnique(s: seq<Edit>, t: seq<Edit>, a: seq<string>, b: seq<string>, rows1: seq<Row>, rows2: seq<Row>,
                     other1: seq<Row>, other2: seq<Row>)
    requires ShowsDiff(s, a, b, rows1, rows2) && ShowsDiff(t, a, b, other1, other2)
    ensures s == t && rows1 == other1 && rows2 == other2
  {
    GreedyIsUnique(s, t, a, b);
  }
}
