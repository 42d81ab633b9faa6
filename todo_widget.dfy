/**
 * The home-screen todo widget.  On every refresh the provider reads four
 * preference strings (titles, ids, completion flags, pending count), writes the
 * summary label, hides all five fixed rows, and then either shows the
 * "no todos" message or fills the first rows from the decoded lists.
 *
 * The platform's view tree (`RemoteViews`) is modelled by `WidgetViews`: an
 * array of five row records plus the empty-message visibility and the label.
 * A row's text colour, paint flags and check icon are set by three separate
 * calls in the provider; they are kept as three fields here so that the model
 * can state that the three always agree.
 */
module TodoWidget {
  import opened TodoEncoding
  import CountLabel

  /** The number of fixed rows in the widget layout. */
  const RowCount: nat := 5

  /** Text colour of a row: gray (#888888) for a completed todo, white otherwise. */
  datatype TextColor = Gray | White

  /** The check-box drawable of a row. */
  datatype CheckIcon = Checked | Unchecked

  /** One row of the widget: its visibility, its text and its styling. */
  datatype Row = Row(visible: bool, title: string, color: TextColor, strikeThrough: bool, icon: CheckIcon)

  /** Everything the provider writes into the view tree that this model tracks. */
  datatype Rendering = Rendering(rows: seq<Row>, emptyMessageVisible: bool, countLabel: string)

  /** A todo is completed only when its flag exists and is exactly "1". */
  predicate IsCompleted(completed: seq<string>, i: nat)
  {
    i < |completed| && completed[i] == "1"
  }

  /** A filled row: gray, struck through and checked when completed; white, plain and unchecked otherwise. */
  function FilledRow(title: string, done: bool): Row
  {
    if done then Row(true, title, Gray, true, Checked)
    else Row(true, title, White, false, Unchecked)
  }

  /** The three style attributes agree: all "completed" or all "open". */
  predicate StyleConsistent(r: Row)
  {
    (r.color == Gray <==> r.strikeThrough) && (r.strikeThrough <==> r.icon == Checked)
  }

  /** Whether row `i` is filled: it needs a title, an id and a slot. */
  predicate Filled(titles: seq<string>, ids: seq<string>, i: nat)
  {
    i < |titles| && i < |ids| && i < RowCount
  }

  /**
   * Row `i` after a refresh, given what it held before (`stale`): filled from the
   * lists when it is in range, otherwise only hidden (its text and style are left
   * as they were, which is invisible).
   */
  function RefreshedRow(stale: Row, titles: seq<string>, ids: seq<string>, completed: seq<string>, i: nat): (r: Row)
    ensures r.visible <==> Filled(titles, ids, i)
    ensures r.visible ==> r.title == titles[i] && StyleConsistent(r) && (r.icon == Checked <==> IsCompleted(completed, i))
    ensures !r.visible ==> r.(visible := stale.visible) == stale
  {
    if Filled(titles, ids, i) then FilledRow(titles[i], IsCompleted(completed, i))
    else stale.(visible := false)
  }

  function RefreshedRows(stale: seq<Row>, titles: seq<string>, ids: seq<string>, completed: seq<string>): (r: seq<Row>)
    ensures |r| == |stale|
  {
    seq(|stale|, i requires 0 <= i < |stale| => RefreshedRow(stale[i], titles, ids, completed, i))
  }

  /** The whole refresh, as a function of the previous view state and the four preference strings. */
  function Project(stale: seq<Row>, todoTitles: string, todoIds: string, todoCompleted: string, todoCount: string): (r: Rendering)
    ensures |r.rows| == |stale|
    ensures r.emptyMessageVisible <==> todoTitles == ""
    ensures r.emptyMessageVisible ==> forall i :: 0 <= i < |r.rows| ==> !r.rows[i].visible
    ensures r.countLabel == CountLabel.AllDone || r.countLabel == todoCount + CountLabel.PendingSuffix
  {
    Rendering(
      RefreshedRows(stale, Decode(todoTitles), Decode(todoIds), Decode(todoCompleted)),
      Decode(todoTitles) == [],
      CountLabel.Label(todoCount))
  }

  function Min3(a: nat, b: nat, c: nat): nat
  {
    if a <= b && a <= c then a else if b <= c then b else c
  }

  /** The number of visible rows. */
  function VisibleCount(rows: seq<Row>): nat
    decreases |rows|
  {
    if rows == [] then 0
    else VisibleCount(rows[..|rows| - 1]) + (if rows[|rows| - 1].visible then 1 else 0)
  }

  /** The platform view tree of one widget instance. */
  class WidgetViews {
    const rows: array<Row>
    var emptyMessageVisible: bool
    var countLabel: string

    ghost predicate Valid()
      reads this
    {
      rows.Length == RowCount
    }

    function Current(): Rendering
      reads this, rows
    {
      Rendering(rows[..], emptyMessageVisible, countLabel)
    }

    /** A view tree inflated from the layout, whose initial contents are whatever the layout declares. */
    constructor (initial: Rendering)
      requires |initial.rows| == RowCount
      ensures Valid() && fresh(rows)
      ensures Current() == initial
    {
      rows := new Row[RowCount](i requires 0 <= i < RowCount reads {} => initial.rows[i]);
      emptyMessageVisible := initial.emptyMessageVisible;
      countLabel := initial.countLabel;
      new;
      assert rows[..] == initial.rows;
    }

    /**
     * The provider's refresh of one widget: label, hide every row, then show the
     * empty message or fill the rows that have both a title and an id.
     */
    method UpdateAppWidget(todoTitles: string, todoIds: string, todoCompleted: string, todoCount: string)
      requires Valid()
      modifies this, rows
      ensures Valid()
      ensures Current() == Project(old(rows[..]), todoTitles, todoIds, todoCompleted, todoCount)
    {
      ghost var stale := rows[..];
      countLabel := CountLabel.Label(todoCount);

      var titles := Decode(todoTitles);
      var ids := Decode(todoIds);
      var completed := Decode(todoCompleted);

      for k := 0 to rows.Length
        modifies rows
        invariant forall j :: 0 <= j < rows.Length ==> rows[j] == (if j < k then stale[j].(visible := false) else stale[j])
      {
        rows[k] := rows[k].(visible := false);
      }

      if |titles| == 0 {
        emptyMessageVisible := true;
      } else {
        emptyMessageVisible := false;
        for i := 0 to |titles|
          modifies rows
          invariant forall j :: 0 <= j < rows.Length ==>
            rows[j] == (if j < i then RefreshedRow(stale[j], titles, ids, completed, j) else stale[j].(visible := false))
        {
          if i < rows.Length && i < |ids| {
            rows[i] := rows[i].(visible := true);
            var isCompleted := i < |completed| && completed[i] == "1";
            rows[i] := rows[i].(title := titles[i]);
            if isCompleted {
              rows[i] := rows[i].(color := Gray, strikeThrough := true, icon := Checked);
            } else {
              rows[i] := rows[i].(color := White, strikeThrough := false, icon := Unchecked);
            }
          }
        }
      }
      assert rows[..] == RefreshedRows(stale, titles, ids, completed);
    }
  }

  /** With no titles, the empty message shows and every row is hidden, whatever the ids and flags hold. */
  lemma EmptyTitlesShowEmptyMessage(stale: seq<Row>, todoIds: string, todoCompleted: string, todoCount: string)
    ensures Project(stale, "", todoIds, todoCompleted, todoCount).emptyMessageVisible
    ensures forall i :: 0 <= i < |stale| ==> !Project(stale, "", todoIds, todoCompleted, todoCount).rows[i].visible
  {
  }

  /**
   * With titles present the empty message is hidden, and row `i` is visible exactly
   * when `i < min(|titles|, |ids|, 5)`; it then shows `titles[i]`, completed exactly
   * when flag `i` exists and is "1".
   */
  lemma RowsFollowLists(stale: seq<Row>, todoTitles: string, todoIds: string, todoCompleted: string, todoCount: string, i: nat)
    requires |stale| == RowCount && i < RowCount
    ensures var r := Project(stale, todoTitles, todoIds, todoCompleted, todoCount);
      var titles, ids, completed := Decode(todoTitles), Decode(todoIds), Decode(todoCompleted);
      && (todoTitles != "" ==> !r.emptyMessageVisible)
      && (r.rows[i].visible <==> i < Min3(|titles|, |ids|, RowCount))
      && (r.rows[i].visible ==> r.rows[i].title == titles[i])
      && (r.rows[i].visible ==> (r.rows[i].icon == Checked <==> IsCompleted(completed, i)))
  {
  }

  /** Visible rows are never partly styled: colour, strike-through and icon all say the same. */
  lemma VisibleRowsStyleConsistent(stale: seq<Row>, titles: seq<string>, ids: seq<string>, completed: seq<string>, i: nat)
    requires i < |stale| && RefreshedRows(stale, titles, ids, completed)[i].visible
    ensures StyleConsistent(RefreshedRows(stale, titles, ids, completed)[i])
  {
  }

  /** Titles with no matching id are never shown, and no empty message is shown for them either. */
  lemma TitlesWithoutIdsShowNothing(stale: seq<Row>, todoTitles: string, todoCompleted: string, todoCount: string)
    requires |stale| == RowCount && todoTitles != ""
    ensures var r := Project(stale, todoTitles, "", todoCompleted, todoCount);
      !r.emptyMessageVisible && VisibleCount(r.rows) == 0
  {
    VisibleCountRefreshed(stale, Decode(todoTitles), [], Decode(todoCompleted), |stale|);
    assert RefreshedRows(stale, Decode(todoTitles), [], Decode(todoCompleted))[..|stale|]
      == RefreshedRows(stale, Decode(todoTitles), [], Decode(todoCompleted));
  }

  /** The first `k` refreshed rows hold `min(|titles|, |ids|, k)` visible ones (for `k` up to the slot count). */
  lemma {:induction false} VisibleCountRefreshed(stale: seq<Row>, titles: seq<string>, ids: seq<string>, completed: seq<string>, k: nat)
    requires k <= |stale| && k <= RowCount
    ensures VisibleCount(RefreshedRows(stale, titles, ids, completed)[..k]) == Min3(|titles|, |ids|, k)
    decreases k
  {
    var r := RefreshedRows(stale, titles, ids, completed);
    if k > 0 {
      VisibleCountRefreshed(stale, titles, ids, completed, k - 1);
      assert r[..k][..k - 1] == r[..k - 1];
    }
  }

  /**
   * Exactly `min(|titles|, |ids|, 5)` rows are visible: never more than five, and
   * with more than five todos the first five are shown and the rest dropped silently.
   */
  lemma VisibleRowsBounded(stale: seq<Row>, todoTitles: string, todoIds: string, todoCompleted: string, todoCount: string)
    requires |stale| == RowCount
    ensures var r := Project(stale, todoTitles, todoIds, todoCompleted, todoCount);
      VisibleCount(r.rows) == Min3(|Decode(todoTitles)|, |Decode(todoIds)|, RowCount) <= RowCount
  {
    var rows := RefreshedRows(stale, Decode(todoTitles), Decode(todoIds), Decode(todoCompleted));
    VisibleCountRefreshed(stale, Decode(todoTitles), Decode(todoIds), Decode(todoCompleted), RowCount);
    assert rows[..RowCount] == rows;
  }

  /**
   * No state from an earlier refresh shows through: two refreshes with the same
   * preference strings agree on the label, the empty message, which rows are
   * visible and everything a visible row displays.
   */
  lemma RefreshIgnoresStaleRows(stale1: seq<Row>, stale2: seq<Row>, todoTitles: string, todoIds: string, todoCompleted: string, todoCount: string)
    requires |stale1| == |stale2| == RowCount
    ensures var r1 := Project(stale1, todoTitles, todoIds, todoCompleted, todoCount);
      var r2 := Project(stale2, todoTitles, todoIds, todoCompleted, todoCount);
      && r1.countLabel == r2.countLabel
      && r1.emptyMessageVisible == r2.emptyMessageVisible
      && forall i :: 0 <= i < RowCount ==>
           r1.rows[i].visible == r2.rows[i].visible && (r1.rows[i].visible ==> r1.rows[i] == r2.rows[i])
  {
  }
}

/** A worked refresh: two todos, the first completed. */
module TodoWidgetExample {
  import opened TodoWidget
  import opened TodoEncoding
  import CountLabel

  /** Two entries without any '|', joined with the separator, decode to themselves. */
  lemma DecodeTwo(a: string, b: string)
    requires BarFree(a) && BarFree(b)
    ensures Decode(a + Delim + b) == [a, b]
  {
    BarFreeSeparable(a);
    BarFreeSeparable(b);
    DecodeJoin([a, b]);
    assert [a, b][1..] == [b];
    assert Join([b]) == b;
    assert Join([a, b]) == a + Delim + Join([b]);
  }

  /** The stored titles of the worked example. */
  lemma DecodeExampleTitles()
    ensures Decode("Buy milk|||Call mom") == ["Buy milk", "Call mom"]
  {
    DecodeTwo("Buy milk", "Call mom");
    assert "Buy milk" + Delim + "Call mom" == "Buy milk|||Call mom";
  }

  /** The stored ids of the worked example. */
  lemma DecodeExampleIds()
    ensures Decode("1|||2") == ["1", "2"]
  {
    DecodeTwo("1", "2");
    assert "1" + Delim + "2" == "1|||2";
  }

  /** The stored count of the worked example. */
  lemma ExampleLabel()
    ensures CountLabel.Label("1") == "1 pending"
  {
    CountLabel.LabelOfNumeral("", "1");
    assert "" + "1" == "1";
  }

  /** "Buy milk" completed and "Call mom" open: two filled rows, three hidden, "1 pending". */
  lemma TwoTodosOneDone(stale: seq<Row>)
    requires |stale| == RowCount
    ensures var r := Project(stale, "Buy milk|||Call mom", "1|||2", "1", "1");
      && r.rows[0] == Row(true, "Buy milk", Gray, true, Checked)
      && r.rows[1] == Row(true, "Call mom", White, false, Unchecked)
      && !r.rows[2].visible && !r.rows[3].visible && !r.rows[4].visible
      && !r.emptyMessageVisible && r.countLabel == "1 pending"
  {
    DecodeExampleTitles();
    DecodeExampleIds();
    assert Decode("1") == ["1"];
    ExampleLabel();
  }
}
