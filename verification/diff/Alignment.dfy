/** The rows that the dialog shows, how a script labels them, and how they are lined up. */
module Alignment {
  import opened Options
  import opened EditScripts
  import opened Optimality

  datatype DiffState = Unset | Removed | Inserted | Unchanged | Padding

  datatype Row = Row(text: string, state: DiffState)

  const BLANK := Row("", Padding)

  /** The rows of the first list, labelled by a script. */
  function Left(s: seq<Edit>, rows: seq<string>): (r: seq<Row>)
    requires Run(s, rows).Some?
  {
    if s == [] then []
    else if s[0].Insert? then Left(s[1..], rows)
    else [Row(rows[0], if s[0].Keep? then Unchanged else Removed)] + Left(s[1..], rows[1..])
  }

  /** The rows of the second list, labelled by a script. */
  function Right(s: seq<Edit>, rows: seq<string>): (r: seq<Row>)
    requires Run(s, rows).Some?
  {
    if s == [] then []
    else if s[0].Insert? then [Row(s[0].text, Inserted)] + Right(s[1..], rows)
    else if s[0].Keep? then [Row(rows[0], Unchanged)] + Right(s[1..], rows[1..])
    else Right(s[1..], rows[1..])
  }

  function Texts(rows: seq<Row>): (t: seq<string>) {
    seq(|rows|, i requires 0 <= i < |rows| => rows[i].text)
  }

  /** The texts of the rows that carry a label. */
  function TextsOf(rows: seq<Row>, state: DiffState): (t: seq<string>) {
    if rows == [] then []
    else (if rows[0].state == state then [rows[0].text] else []) + TextsOf(rows[1..], state)
  }

  predicate OnlyStates(rows: seq<Row>, first: DiffState, second: DiffState) {
    forall i :: 0 <= i < |rows| ==> rows[i].state == first || rows[i].state == second
  }

  lemma ConsRow(r: Row, rest: seq<Row>, state: DiffState)
    ensures Texts([r] + rest) == [r.text] + Texts(rest)
    ensures TextsOf([r] + rest, state) == (if r.state == state then [r.text] else []) + TextsOf(rest, state)
  {
  }

  /** Every row of the first list is labelled once, as removed or unchanged. */
  lemma {:induction false} LeftIsPartitioned(s: seq<Edit>, a: seq<string>)
    requires Run(s, a).Some?
    ensures Texts(Left(s, a)) == a && OnlyStates(Left(s, a), Removed, Unchanged)
    ensures TextsOf(Left(s, a), Unchanged) == Kept(s, a)
  {
    if s != [] {
      if s[0].Insert? {
        LeftIsPartitioned(s[1..], a);
      } else {
        LeftIsPartitioned(s[1..], a[1..]);
        ConsRow(Row(a[0], if s[0].Keep? then Unchanged else Removed), Left(s[1..], a[1..]), Unchanged);
        assert [a[0]] + a[1..] == a;
      }
    }
  }

  /** Every row of the second list is labelled once, as inserted or unchanged. */
  lemma {:induction false} RightIsPartitioned(s: seq<Edit>, a: seq<string>)
    requires Run(s, a).Some?
    ensures Texts(Right(s, a)) == Run(s, a).value && OnlyStates(Right(s, a), Inserted, Unchanged)
    ensures TextsOf(Right(s, a), Unchanged) == Kept(s, a)
  {
    if s != [] {
      if s[0].Insert? {
        RightIsPartitioned(s[1..], a);
        ConsRow(Row(s[0].text, Inserted), Right(s[1..], a), Unchanged);
      } else {
        RightIsPartitioned(s[1..], a[1..]);
        if s[0].Keep? {
          ConsRow(Row(a[0], Unchanged), Right(s[1..], a[1..]), Unchanged);
        }
      }
    }
  }

  /** Each row of the first list has the label of the instruction that deals with it. */
  lemma {:induction false} LeftFollowsScript(s: seq<Edit>, a: seq<string>, i: nat)
    requires Run(s, a).Some? && i < |s| && !s[i].Insert?
    ensures Uses(s[..i]) < |Left(s, a)|
    ensures Left(s, a)[Uses(s[..i])].state == if s[i].Keep? then Unchanged else Removed
    decreases |s|
  {
    if i > 0 {
      assert s[..i][1..] == s[1..][..i - 1] && s[..i][0] == s[0];
      LeftFollowsScript(s[1..], if s[0].Insert? then a else a[1..], i - 1);
    }
  }

  /** So has each row of the second list. */
  lemma {:induction false} RightFollowsScript(s: seq<Edit>, a: seq<string>, i: nat)
    requires Run(s, a).Some? && i < |s| && !s[i].Remove?
    ensures Makes(s[..i]) < |Right(s, a)|
    ensures Right(s, a)[Makes(s[..i])].state == if s[i].Keep? then Unchanged else Inserted
    decreases |s|
  {
    if i > 0 {
      assert s[..i][1..] == s[1..][..i - 1] && s[..i][0] == s[0];
      RightFollowsScript(s[1..], if s[0].Insert? then a else a[1..], i - 1);
    }
  }

  // --- Lining up ------------------------------------------------------------------------

  /** Row by row: pads whichever list would otherwise move ahead. */
  function Align(left: seq<Row>, right: seq<Row>): (r: (seq<Row>, seq<Row>))
    decreases |left| + |right|
  {
    if left == [] || right == [] then
      (left, right)
    else if left[0].state == Removed && right[0].state != Inserted then
      Put(left[0], BLANK, Align(left[1..], right))
    else if left[0].state != Removed && right[0].state == Inserted then
      Put(BLANK, right[0], Align(left, right[1..]))
    else
      Put(left[0], right[0], Align(left[1..], right[1..]))
  }

  function Put(l: Row, r: Row, rest: (seq<Row>, seq<Row>)): (seq<Row>, seq<Row>) {
    ([l] + rest.0, [r] + rest.1)
  }

  function StripPadding(rows: seq<Row>): (r: seq<Row>) {
    if rows == [] then []
    else (if rows[0].state == Padding then [] else [rows[0]]) + StripPadding(rows[1..])
  }

  lemma {:induction false} NothingToStrip(rows: seq<Row>)
    requires forall r :: r in rows ==> r.state != Padding
    ensures StripPadding(rows) == rows
  {
    if rows != [] {
      NothingToStrip(rows[1..]);
    }
  }

  /** Padding is all that lining up adds. */
  lemma {:induction false} AlignAddsOnlyPadding(left: seq<Row>, right: seq<Row>)
    requires forall r :: r in left ==> r.state != Padding
    requires forall r :: r in right ==> r.state != Padding
    ensures StripPadding(Align(left, right).0) == left
    ensures StripPadding(Align(left, right).1) == right
    decreases |left| + |right|
  {
    hide StripPadding;
    if left == [] || right == [] {
      NothingToStrip(left);
      NothingToStrip(right);
    } else if left[0].state == Removed && right[0].state != Inserted {
      AlignAddsOnlyPadding(left[1..], right);
      StripPut(left[0], BLANK, Align(left[1..], right));
    } else if left[0].state != Removed && right[0].state == Inserted {
      AlignAddsOnlyPadding(left, right[1..]);
      StripPut(BLANK, right[0], Align(left, right[1..]));
    } else {
      AlignAddsOnlyPadding(left[1..], right[1..]);
      StripPut(left[0], right[0], Align(left[1..], right[1..]));
    }
  }

  lemma StripPut(l: Row, r: Row, rest: (seq<Row>, seq<Row>))
    ensures StripPadding(Put(l, r, rest).0) == (if l.state == Padding then [] else [l]) + StripPadding(rest.0)
    ensures StripPadding(Put(l, r, rest).1) == (if r.state == Padding then [] else [r]) + StripPadding(rest.1)
  {
  }

  predicate UnchangedAt(rows: seq<Row>, i: int) {
    0 <= i < |rows| && rows[i].state == Unchanged
  }

  /** Unchanged rows face each other, and nothing else faces an unchanged row. */
  ghost predicate LinedUp(left: seq<Row>, right: seq<Row>) {
    forall i {:trigger UnchangedAt(left, i)} {:trigger UnchangedAt(right, i)} ::
      (UnchangedAt(left, i) <==> UnchangedAt(right, i)) &&
      (UnchangedAt(left, i) ==> left[i].text == right[i].text)
  }

  /** If the unchanged rows of two labelled lists spell the same texts, lining up pairs them off. */
  lemma {:induction false} AlignLinesUp(left: seq<Row>, right: seq<Row>)
    requires OnlyStates(left, Removed, Unchanged) && OnlyStates(right, Inserted, Unchanged)
    requires TextsOf(left, Unchanged) == TextsOf(right, Unchanged)
    ensures LinedUp(Align(left, right).0, Align(left, right).1)
    decreases |left| + |right|
  {
    if left == [] || right == [] {
      forall i {:trigger UnchangedAt(left, i)} {:trigger UnchangedAt(right, i)}
        ensures !UnchangedAt(left, i) && !UnchangedAt(right, i)
      {
        UnchangedIsSpelt(left, i);
        UnchangedIsSpelt(right, i);
      }
    } else if left[0].state == Removed && right[0].state != Inserted {
      AlignLinesUp(left[1..], right);
      PutLinesUp(left[0], BLANK, Align(left[1..], right));
    } else if left[0].state != Removed && right[0].state == Inserted {
      AlignLinesUp(left, right[1..]);
      PutLinesUp(BLANK, right[0], Align(left, right[1..]));
    } else {
      HeadsPairOff(left, right);
      AlignLinesUp(left[1..], right[1..]);
      PutLinesUp(left[0], right[0], Align(left[1..], right[1..]));
    }
  }

  lemma {:induction false} UnchangedIsSpelt(rows: seq<Row>, i: int)
    ensures UnchangedAt(rows, i) ==> TextsOf(rows, Unchanged) != []
    decreases |rows|
  {
    if UnchangedAt(rows, i) && i > 0 {
      UnchangedIsSpelt(rows[1..], i - 1);
    }
  }

  lemma HeadsPairOff(left: seq<Row>, right: seq<Row>)
    requires left != [] && right != [] && TextsOf(left, Unchanged) == TextsOf(right, Unchanged)
    requires left[0].state == Unchanged <==> right[0].state == Unchanged
    ensures TextsOf(left[1..], Unchanged) == TextsOf(right[1..], Unchanged)
    ensures left[0].state == Unchanged ==> left[0].text == right[0].text
  {
    if left[0].state == Unchanged {
      assert TextsOf(left, Unchanged)[1..] == TextsOf(left[1..], Unchanged);
      assert TextsOf(right, Unchanged)[1..] == TextsOf(right[1..], Unchanged);
      assert TextsOf(left, Unchanged)[0] == left[0].text;
    } else {
      assert TextsOf(left, Unchanged) == TextsOf(left[1..], Unchanged);
      assert TextsOf(right, Unchanged) == TextsOf(right[1..], Unchanged);
    }
  }

  lemma PutLinesUp(l: Row, r: Row, rest: (seq<Row>, seq<Row>))
    requires LinedUp(rest.0, rest.1)
    requires l.state == Unchanged <==> r.state == Unchanged
    requires l.state == Unchanged ==> l.text == r.text
    ensures LinedUp(Put(l, r, rest).0, Put(l, r, rest).1)
  {
    var (u, w) := Put(l, r, rest);
    forall i ensures UnchangedAt(u, i) <==> (if i == 0 then l.state == Unchanged else UnchangedAt(rest.0, i - 1))
             ensures UnchangedAt(w, i) <==> (if i == 0 then r.state == Unchanged else UnchangedAt(rest.1, i - 1))
    {
    }
  }

  // --- There is only one way of lining up -----------------------------------------------

  predicate PaddedAt(rows: seq<Row>, i: int) {
    0 <= i < |rows| && rows[i].state == Padding
  }

  /** Padding in these rows faces rows with the label in the other ones, and does not keep a row from facing them. */
  ghost predicate PadsTidily(rows: seq<Row>, others: seq<Row>, own: DiffState, other: DiffState) {
    (forall i :: PaddedAt(rows, i) ==> rows[i] == BLANK && i < |others| && others[i].state == other) &&
    (forall i :: PaddedAt(rows, i) && i + 1 < |rows| ==> rows[i + 1].state != own) &&
    !PaddedAt(rows, |rows| - 1)
  }

  /** There is padding only across from removed and inserted rows that nothing else could face. */
  ghost predicate IsTidy(left: seq<Row>, right: seq<Row>) {
    PadsTidily(left, right, Removed, Inserted) && PadsTidily(right, left, Inserted, Removed)
  }

  lemma {:induction false} AlignIsTidy(left: seq<Row>, right: seq<Row>)
    requires OnlyStates(left, Removed, Unchanged) && OnlyStates(right, Inserted, Unchanged)
    ensures IsTidy(Align(left, right).0, Align(left, right).1)
    ensures left == [] <==> Align(left, right).0 == []
    ensures right == [] <==> Align(left, right).1 == []
    ensures left != [] ==> Align(left, right).0[0] == left[0] || Align(left, right).0[0] == BLANK
    ensures right != [] ==> Align(left, right).1[0] == right[0] || Align(left, right).1[0] == BLANK
    decreases |left| + |right|
  {
    hide IsTidy;
    if left == [] || right == [] {
      assert IsTidy(left, right) by {
        NoPadding(left, right);
      }
    } else if left[0].state == Removed && right[0].state != Inserted {
      AlignIsTidy(left[1..], right);
      PutIsTidy(left[0], BLANK, Align(left[1..], right));
    } else if left[0].state != Removed && right[0].state == Inserted {
      AlignIsTidy(left, right[1..]);
      PutIsTidy(BLANK, right[0], Align(left, right[1..]));
    } else {
      AlignIsTidy(left[1..], right[1..]);
      PutIsTidy(left[0], right[0], Align(left[1..], right[1..]));
    }
  }

  lemma NoPadding(left: seq<Row>, right: seq<Row>)
    requires OnlyStates(left, Removed, Unchanged) && OnlyStates(right, Inserted, Unchanged)
    ensures IsTidy(left, right)
  {
  }

  lemma PutIsTidy(l: Row, r: Row, rest: (seq<Row>, seq<Row>))
    requires IsTidy(rest.0, rest.1)
    requires l.state == Padding ==> l == BLANK && r.state == Inserted && rest.0 != [] && rest.0[0].state != Removed
    requires r.state == Padding ==> r == BLANK && l.state == Removed && rest.1 != [] && rest.1[0].state != Inserted
    ensures IsTidy(Put(l, r, rest).0, Put(l, r, rest).1)
  {
    var (u, w) := Put(l, r, rest);
    forall i ensures PaddedAt(u, i) <==> (if i == 0 then l.state == Padding else PaddedAt(rest.0, i - 1))
             ensures PaddedAt(w, i) <==> (if i == 0 then r.state == Padding else PaddedAt(rest.1, i - 1))
    {
    }
  }

  /** If rows start with padding that leaves room for a label, their first row does not have it. */
  lemma {:induction false} RoomWasLeft(rows: seq<Row>, state: DiffState)
    requires PaddedAt(rows, 0) && forall i :: PaddedAt(rows, i) && i + 1 < |rows| ==> rows[i + 1].state != state
    ensures StripPadding(rows) != [] ==> StripPadding(rows)[0].state != state
    decreases |rows|
  {
    if |rows| > 1 && rows[1].state == Padding {
      forall i | PaddedAt(rows[1..], i) && i + 1 < |rows[1..]| ensures rows[1..][i + 1].state != state {
        assert PaddedAt(rows, i + 1);
      }
      RoomWasLeft(rows[1..], state);
    }
  }

  lemma {:induction false} RowsRemain(rows: seq<Row>)
    requires rows != [] && !PaddedAt(rows, |rows| - 1)
    ensures StripPadding(rows) != []
    decreases |rows|
  {
    if |rows| > 1 {
      RowsRemain(rows[1..]);
    }
  }

  lemma RestIsTidy(left: seq<Row>, right: seq<Row>)
    requires left != [] && right != [] && IsTidy(left, right) && LinedUp(left, right)
    ensures IsTidy(left[1..], right[1..]) && LinedUp(left[1..], right[1..])
  {
    forall i | i >= 0
      ensures PaddedAt(left[1..], i) <==> PaddedAt(left, i + 1)
      ensures PaddedAt(right[1..], i) <==> PaddedAt(right, i + 1)
      ensures UnchangedAt(left[1..], i) <==> UnchangedAt(left, i + 1)
      ensures UnchangedAt(right[1..], i) <==> UnchangedAt(right, i + 1)
    {
    }
  }

  /** Where the lists start, tidy rows can only be as Align puts them. */
  lemma HeadsAreSettled(left: seq<Row>, right: seq<Row>, u: seq<Row>, w: seq<Row>)
    requires OnlyStates(left, Removed, Unchanged) && OnlyStates(right, Inserted, Unchanged)
    requires left != [] && right != [] && u != [] && w != []
    requires StripPadding(u) == left && StripPadding(w) == right && IsTidy(u, w) && LinedUp(u, w)
    ensures u[0] == if left[0].state != Removed && right[0].state == Inserted then BLANK else left[0]
    ensures w[0] == if left[0].state == Removed && right[0].state != Inserted then BLANK else right[0]
  {
    assert PaddedAt(u, 0) || u[0] == left[0];
    assert PaddedAt(w, 0) || w[0] == right[0];
    if PaddedAt(u, 0) {
      RoomWasLeft(u, Removed);
    }
    if PaddedAt(w, 0) {
      RoomWasLeft(w, Inserted);
    }
    assert UnchangedAt(u, 0) <==> UnchangedAt(w, 0);
  }

  /** Rows that are lined up and tidy are as Align puts them: there is no other way. */
  lemma {:induction false} TidyIsAligned(left: seq<Row>, right: seq<Row>, u: seq<Row>, w: seq<Row>)
    requires OnlyStates(left, Removed, Unchanged) && OnlyStates(right, Inserted, Unchanged)
    requires StripPadding(u) == left && StripPadding(w) == right && IsTidy(u, w) && LinedUp(u, w)
    ensures (u, w) == Align(left, right)
    decreases |u| + |w|
  {
    if u != [] {
      RowsRemain(u);
    }
    if w != [] {
      RowsRemain(w);
    }
    if u == [] || w == [] {
      assert forall r :: r in u ==> r.state != Padding by {
        assert forall i :: 0 <= i < |u| ==> !PaddedAt(u, i);
      }
      assert forall r :: r in w ==> r.state != Padding by {
        assert forall i :: 0 <= i < |w| ==> !PaddedAt(w, i);
      }
      NothingToStrip(u);
      NothingToStrip(w);
    } else {
      HeadsAreSettled(left, right, u, w);
      RestIsTidy(u, w);
      hide IsTidy, LinedUp;
      var left' := if u[0].state == Padding then left else left[1..];
      var right' := if w[0].state == Padding then right else right[1..];
      assert u == [u[0]] + u[1..] && w == [w[0]] + w[1..];
      TidyIsAligned(left', right', u[1..], w[1..]);
    }
  }
}
