/** A board column: its header figures and the drop handler that turns a
    card's 'text/plain' payload back into a story id and names the column
    title as the story's new status. */
module KanbanColumn {
  import opened Wrappers
  import opened Text
  import opened JsNumber
  import StoryCard

  /** What the column reads of a story. */
  datatype BoardStory = BoardStory(id: int, points: int, isSprintReady: Option<bool>)

  /** `stories.reduce((sum, story) => sum + story.points, 0)`, a left fold. */
  function TotalPoints(stories: seq<BoardStory>): (r: int)
    ensures (forall i :: 0 <= i < |stories| ==> stories[i].points >= 0) ==> r >= 0
    ensures |stories| == 0 ==> r == 0
  {
    if |stories| == 0 then 0
    else TotalPoints(stories[..|stories| - 1]) + stories[|stories| - 1].points
  }

  /** The total of two lists placed end to end is the sum of their totals. */
  lemma {:induction false} TotalPointsAppend(a: seq<BoardStory>, b: seq<BoardStory>)
    ensures TotalPoints(a + b) == TotalPoints(a) + TotalPoints(b)
    decreases |b|
  {
    if |b| > 0 {
      var init := b[..|b| - 1];
      assert (a + b)[..|a + b| - 1] == a + init;
      TotalPointsAppend(a, init);
    } else {
      assert a + b == a;
    }
  }

  /** Moving a story from one column to the end of another keeps the
      board's total: the story's points leave one header and join the other. */
  lemma MoveKeepsTotal(from: seq<BoardStory>, to: seq<BoardStory>, i: int)
    requires 0 <= i < |from|
    ensures var moved := from[..i] + from[i + 1..];
      && TotalPoints(moved) == TotalPoints(from) - from[i].points
      && TotalPoints(to + [from[i]]) == TotalPoints(to) + from[i].points
  {
    assert from == from[..i] + [from[i]] + from[i + 1..];
    TotalPointsAppend(from[..i] + [from[i]], from[i + 1..]);
    TotalPointsAppend(from[..i], [from[i]]);
    TotalPointsAppend(from[..i], from[i + 1..]);
    TotalPointsAppend(to, [from[i]]);
    assert ([] + [from[i]])[..0] == [];
    assert TotalPoints([from[i]]) == from[i].points by {
      assert [from[i]][..0] == [];
    }
  }

  /** The header of a column. */
  datatype Header = Header(count: nat, totalPoints: int, isDone: bool, showsEmptyState: bool)

  const EmptyStateText := "No user stories added"

  /** The count badge, the points line, the done styling and the empty
      state of a column. */
  function ColumnHeader(title: string, stories: seq<BoardStory>): (r: Header)
    ensures r.count == |stories|
    ensures r.totalPoints == TotalPoints(stories)
    ensures r.isDone <==> title == "Done"
    ensures r.showsEmptyState <==> r.count == 0
  {
    Header(|stories|, TotalPoints(stories), title == "Done", |stories| == 0)
  }

  /** The drop handler: `Number` of the payload; unless that is NaN,
      `onStoryDrop` gets the number and the column title verbatim. */
  function Drop(title: string, data: string): (r: Option<(NumberValue, string)>)
    ensures r.None? <==> Parse(data).NaN?
    ensures r.Some? ==> r.value == (Parse(data), title)
  {
    var id := Parse(data);
    if id.NaN? then None else Some((id, title))
  }

  /** An empty payload, which a drag that carries no text produces, passes
      the NaN test and reports story 0 as dropped. */
  lemma EmptyPayloadDropsStoryZero(title: string)
    ensures Drop(title, "") == Some((Exact(0), title))
  {
    ParseEmpty();
  }

  /** The drop handler with a blank payload ignored as well: only a payload
      that holds a numeric literal reports a drop. */
  function DropChecked(title: string, data: string): (r: Option<(NumberValue, string)>)
    ensures r.Some? ==> JsTrim(data) != [] && IsNumericLiteral(JsTrim(data))
    ensures r.Some? ==> r.value == (Parse(data), title) && !r.value.0.NaN?
    ensures JsTrim(data) != [] ==> r == Drop(title, data)
  {
    if JsTrim(data) == [] then None else Drop(title, data)
  }

  /** A card's payload dropped on a column reports that card's id and the
      column's title; a locked card gives no payload at all. */
  lemma {:induction false} CardToColumn(id: int, isSprintReady: Option<bool>, title: string)
    requires -MaxSafe <= id <= MaxSafe
    ensures var d := StoryCard.StartDrag(id, isSprintReady);
      && (d.payload.Some? <==> StoryCard.IsDraggable(isSprintReady))
      && (d.payload.Some? ==> DropChecked(title, d.payload.value) == Some((Exact(id), title)))
  {
    ParseRoundTrip(id);
    IntToStringUnpadded(id);
  }
}
