/** Which cursors are accepted, and what exactly a page holds, in terms of the stored events alone. */
module Cursors {
  import opened Paging
  import opened Records
  import Utf8

  /** The cursor points into the text of stored event `i`, at a character boundary before its end. */
  predicate PointsInto(es: seq<Event>, cur: Cursor, i: nat) {
    && i < |es| && es[i].at == cur.after
    && cur.textOffset < |es[i].text| && Utf8.Valid(es[i].text[cur.textOffset..])
  }

  lemma PointsWhereItReads(es: seq<Event>, cur: Cursor)
    requires Readable(es) && cur.textOffset > 0
    ensures ValidCursor(es, cur) <==> exists i: nat :: PointsInto(es, cur, i)
    ensures forall i: nat :: PointsInto(es, cur, i) ==> From(es, cur.after) == es[i..]
  {
    hide From, Utf8.Valid, Readable;
    if ValidCursor(es, cur) {
      var i := FromIsSuffix(es, cur.after);
      assert es[i..][0] == es[i];
      assert PointsInto(es, cur, i);
    }
    forall i: nat | PointsInto(es, cur, i)
      ensures ValidCursor(es, cur) && From(es, cur.after) == es[i..]
    {
      FromEvent(es, i);
    }
  }

  /** What is left to read starts with at least one event whose text continues at the cursor. */
  lemma CursorReads(es: seq<Event>, cur: Cursor, limit: int, maxBytes: int)
    requires Readable(es) && ValidCursor(es, cur) && maxBytes >= 4
    ensures PageOf(es, cur, limit, maxBytes).Ok?
    ensures cur.textOffset > 0 ==> PageOf(es, cur, limit, maxBytes).value.fragments != []
  {
    hide ValidCursor, Readable, Fill, Rest, Shape;
    RestIsComplete(es, cur);
    var n, cut := FillShape(Rest(es, cur), PageLimit(limit), maxBytes);
    ShapeEmpty(Fill(Rest(es, cur), PageLimit(limit), maxBytes), Rest(es, cur), n, cut);
    if cur.textOffset > 0 { ResumeLeavesSome(es, cur); }
  }

  /**
   * A cursor is accepted exactly when it has no text offset, or points into the text of a stored event at a
   * character boundary; any other, for instance one at an event that is no longer there, is refused.
   */
  lemma CursorAcceptedExactly(es: seq<Event>, cur: Cursor, limit: int, maxBytes: int)
    requires Readable(es) && maxBytes >= 4
    ensures PageOf(es, cur, limit, maxBytes).Ok? <==> cur.textOffset == 0 || exists i: nat :: PointsInto(es, cur, i)
  {
    hide Readable, Fill, Rest, PointsInto, From, ResumesAt;
    if cur.textOffset > 0 { PointsWhereItReads(es, cur); }
    if ValidCursor(es, cur) { CursorReads(es, cur, limit, maxBytes); }
  }

  /** Fragment `f` is event `e` with its text from byte `start` on, as far as `f` goes; flagged when that is not all. */
  predicate IsPart(f: Fragment, e: Event, start: nat) {
    && f.textOffset == start && start + |f.event.text| <= |e.text|
    && f.event == e.(text := e.text[start..start + |f.event.text|])
    && f.moreText == f.truncated == (start + |f.event.text| < |e.text|)
  }

  /** The events behind a cursor are those from number `first` on. */
  ghost predicate StartsAt(es: seq<Event>, cur: Cursor, first: nat) {
    && first <= |es|
    && (forall i :: 0 <= i < first ==> if cur.textOffset > 0 then es[i].at < cur.after else es[i].at <= cur.after)
    && (forall i :: first <= i < |es| ==> if cur.textOffset > 0 then es[i].at >= cur.after else es[i].at > cur.after)
    && (cur.textOffset > 0 ==> first < |es| && es[first].at == cur.after)
  }

  /** How many events a page may hold: the limit asked for, or 50 when that is not between 1 and 100. */
  predicate WithinLimit(count: nat, limit: int) {
    if 1 <= limit <= 100 then count <= limit else count <= 50
  }

  lemma FirstBehind(es: seq<Event>, cur: Cursor) returns (first: nat)
    requires Readable(es) && ValidCursor(es, cur)
    ensures StartsAt(es, cur, first) && LeavesFrom(Rest(es, cur), es, first, cur.textOffset)
  {
    hide From, Rest, Utf8.Valid, Complete;
    first := RestIsSuffix(es, cur);
    var from := if cur.textOffset == 0 then cur.after + 1 else cur.after;
    var i := FromIsSuffix(es, from);
    RestLength(es, cur, i);
    SkippedBefore(es, from, i);
  }

  lemma RestLength(es: seq<Event>, cur: Cursor, i: nat)
    requires ValidCursor(es, cur) && i <= |es|
    requires From(es, if cur.textOffset == 0 then cur.after + 1 else cur.after) == es[i..]
    ensures |Rest(es, cur)| == |es| - i
    ensures cur.textOffset > 0 ==> i < |es| && es[i].at == cur.after
  {
    hide From, Utf8.Valid;
    if cur.textOffset > 0 { assert es[i..][0] == es[i]; }
  }

  lemma SkippedBefore(es: seq<Event>, from: nat, i: nat)
    requires Readable(es) && i <= |es| && From(es, from) == es[i..]
    ensures forall j :: 0 <= j < i ==> es[j].at < from
    ensures forall j :: i <= j < |es| ==> es[j].at >= from
  {
    hide From;
    var m := FromIsSuffix(es, from);
    assert |es[i..]| == |es[m..]|;
  }

  /**
   * What a page holds. Its fragments are consecutive stored events from the cursor on, each a slice of the
   * stored text at its declared offset, the first from the cursor's text offset, only the last one cut; no more
   * than the limit; and it ends early only because nothing is left, the last text was cut, or fewer than four
   * bytes of the budget remain. The returned cursor points behind it.
   */
  lemma PageHolds(es: seq<Event>, cur: Cursor, limit: int, maxBytes: int) returns (first: nat)
    requires Readable(es) && maxBytes >= 4 && PageOf(es, cur, limit, maxBytes).Ok?
    ensures var r := PageOf(es, cur, limit, maxBytes).value;
      var page, next := r.fragments, r.next;
      && StartsAt(es, cur, first) && first + |page| <= |es| && WithinLimit(|page|, limit)
      && (forall j :: 0 <= j < |page| ==> IsPart(page[j], es[first + j], if j == 0 then cur.textOffset else 0))
      && (forall j :: 0 <= j < |page| - 1 ==> !page[j].moreText)
      && TextBytes(page) <= maxBytes
      && (page == [] ==> next == cur && first == |es|)
      && (page != [] ==>
            var last := page[|page| - 1];
            && next == Cursor(last.event.at, if last.moreText then last.textOffset + |last.event.text| else 0)
            && (first + |page| == |es| || last.moreText || TextBytes(page) > maxBytes - 4
                || |page| == (if 1 <= limit <= 100 then limit else 50)))
  {
    hide From, Rest, Utf8.Valid, Readable, Complete, Fill, Shape, StartsAt;
    first := FirstBehind(es, cur);
    var rest := Rest(es, cur);
    RestIsComplete(es, cur);
    CursorReads(es, cur, limit, maxBytes);
    var page := Fill(rest, PageLimit(limit), maxBytes);
    var n, cut := FillShape(rest, PageLimit(limit), maxBytes);
    ShapeEmpty(page, rest, n, cut);
    PartsOfShape(es, cur, first, rest, page, n, cut);
    FillIsGreedy(rest, PageLimit(limit), maxBytes);
  }

  lemma PartsOfShape(es: seq<Event>, cur: Cursor, first: nat, rest: seq<Fragment>, page: seq<Fragment>, n: nat,
                     cut: nat)
    requires LeavesFrom(rest, es, first, cur.textOffset) && Shape(page, rest, n, cut)
    ensures first + |page| <= |es|
    ensures forall j :: 0 <= j < |page| ==> IsPart(page[j], es[first + j], if j == 0 then cur.textOffset else 0)
    ensures forall j :: 0 <= j < |page| - 1 ==> !page[j].moreText
  {
    hide Utf8.Valid, Complete;
    forall j | 0 <= j < |page|
      ensures IsPart(page[j], es[first + j], if j == 0 then cur.textOffset else 0)
      ensures j < |page| - 1 ==> !page[j].moreText
    {
      var e, start := es[first + j], if j == 0 then cur.textOffset else 0;
      RestIsTail(rest, es, first, cur.textOffset, j);
      if j < n {
        assert page[j] == rest[j];
        assert e.text[start..] == e.text[start..start + |rest[j].event.text|];
      } else {
        assert page[j] == Head(rest[j], cut);
        assert e.text[start..][..cut] == e.text[start..start + cut];
      }
    }
  }

  lemma RestIsTail(rest: seq<Fragment>, es: seq<Event>, first: nat, textOffset: nat, j: nat)
    requires LeavesFrom(rest, es, first, textOffset) && j < |rest|
    ensures var start := if j == 0 then textOffset else 0;
      && first + j < |es| && start <= |es[first + j].text|
      && !rest[j].moreText && !rest[j].truncated && rest[j].textOffset == start
      && rest[j].event == es[first + j].(text := es[first + j].text[start..])
  {
    hide Complete;
    if j > 0 { assert es[first + j].text[0..] == es[first + j].text; }
  }

  lemma PageCons(f: Fragment, tail: seq<Fragment>)
    ensures var page := [f] + tail;
      && |page| == |tail| + 1 && TextBytes(page) == |f.event.text| + TextBytes(tail)
      && (tail != [] ==> page[|page| - 1] == tail[|tail| - 1])
  {
    assert ([f] + tail)[1..] == tail;
  }

  /** The page loop stops only at the limit, at a cut, at the end, or when one more character may not fit. */
  lemma {:induction false} FillIsGreedy(rest: seq<Fragment>, limit: nat, budget: int)
    requires Complete(rest)
    ensures var page := Fill(rest, limit, budget);
      || |page| == |rest| || |page| == limit
      || (page != [] && page[|page| - 1].moreText)
      || TextBytes(page) > budget - 4
    decreases limit
  {
    hide Utf8.Truncate, Utf8.Valid, TextBytes;
    if rest != [] && limit > 0 && budget > 0 {
      var text := rest[0].event.text;
      if |text| <= budget {
        FillIsGreedy(rest[1..], limit - 1, budget - |text|);
        PageCons(rest[0], Fill(rest[1..], limit - 1, budget - |text|));
      } else {
        Utf8.TruncateCuts(text, budget);
      }
    }
  }
}
