/** Resumable reading of a session's events: what one page holds, and what following cursors adds up to. */
module Paging {
  import opened Basics
  import opened Records
  import Utf8

  /** Everything after event `after`, or, with a text offset, event `after` from that byte on. */
  datatype Cursor = Cursor(after: nat, textOffset: nat)

  /** A returned event: `event.text` is the part of the text that starts at `textOffset`. */
  datatype Fragment = Fragment(event: Event, textOffset: nat, truncated: bool, moreText: bool)

  datatype Page = Page(fragments: seq<Fragment>, next: Cursor)
  datatype CursorError = InvalidCursor

  const START := Cursor(0, 0)

  /** Events at byte `from` or later. */
  function From(es: seq<Event>, from: nat): seq<Event> {
    if es == [] then []
    else if es[0].at >= from then [es[0]] + From(es[1..], from)
    else From(es[1..], from)
  }

  function Whole(es: seq<Event>): seq<Fragment> {
    seq(|es|, i requires 0 <= i < |es| => Fragment(es[i], 0, false, false))
  }

  /** The part of `f` from byte `n` of its text on. */
  function Tail(f: Fragment, n: nat): Fragment
    requires n <= |f.event.text|
  {
    f.(event := f.event.(text := f.event.text[n..]), textOffset := f.textOffset + n)
  }

  /** The first `n` bytes of the text of `f`. */
  function Head(f: Fragment, n: nat): Fragment
    requires n <= |f.event.text|
  {
    f.(event := f.event.(text := f.event.text[..n]), truncated := true, moreText := true)
  }

  predicate ResumesAt(e: Event, cur: Cursor) {
    e.at == cur.after && cur.textOffset < |e.text| && Utf8.Valid(e.text[cur.textOffset..])
  }

  predicate ValidCursor(es: seq<Event>, cur: Cursor) {
    cur.textOffset > 0 ==> From(es, cur.after) != [] && ResumesAt(From(es, cur.after)[0], cur)
  }

  /** What is still to be read at a cursor. */
  function Rest(es: seq<Event>, cur: Cursor): seq<Fragment>
    requires ValidCursor(es, cur)
  {
    if cur.textOffset == 0 then Whole(From(es, cur.after + 1))
    else
      var left := Whole(From(es, cur.after));
      [Tail(left[0], cur.textOffset)] + left[1..]
  }

  /** As much of `rest` as fits `limit` fragments and `budget` text bytes, cut at a character boundary. */
  function Fill(rest: seq<Fragment>, limit: nat, budget: int): seq<Fragment> {
    if rest == [] || limit == 0 || budget <= 0 then []
    else if |rest[0].event.text| <= budget then
      [rest[0]] + Fill(rest[1..], limit - 1, budget - |rest[0].event.text|)
    else
      var cut := Utf8.Truncate(rest[0].event.text, budget);
      if cut == [] then [] else [Head(rest[0], |cut|)]
  }

  function NextCursor(cur: Cursor, page: seq<Fragment>): Cursor {
    if page == [] then cur
    else
      var last := page[|page| - 1];
      Cursor(last.event.at, if last.moreText then last.textOffset + |last.event.text| else 0)
  }

  function PageLimit(limit: int): (n: nat)
    ensures 1 <= n <= 100
  {
    if limit <= 0 || limit > 100 then 50 else limit
  }

  /** One call of `Events` on a session whose events are `es`. */
  function PageOf(es: seq<Event>, cur: Cursor, limit: int, maxBytes: int): Result<Page, CursorError> {
    if !ValidCursor(es, cur) then Err(InvalidCursor)
    else
      var page := Fill(Rest(es, cur), PageLimit(limit), maxBytes);
      if cur.textOffset > 0 && page == [] then Err(InvalidCursor)
      else Ok(Page(page, NextCursor(cur, page)))
  }

  // A reader that puts fragments back together.

  /** What a reader holds: the events so far, and whether the last one is still incomplete. */
  datatype Reader = Reader(events: seq<Event>, open: bool)

  /** The reader takes a fragment only where it belongs: a new event, or the next bytes of the open one. */
  function Accept(r: Option<Reader>, f: Fragment): Option<Reader> {
    if r.None? then None
    else
      var es := r.value.events;
      if f.textOffset == 0 then
        if r.value.open then None else Some(Reader(es + [f.event], f.moreText))
      else if r.value.open && es != [] then
        var last := es[|es| - 1];
        if last.(text := f.event.text) == f.event && |last.text| == f.textOffset then
          Some(Reader(es[..|es| - 1] + [last.(text := last.text + f.event.text)], f.moreText))
        else None
      else None
  }

  function Feed(r: Option<Reader>, fs: seq<Fragment>): Option<Reader>
    decreases fs
  {
    if fs == [] then r else Feed(Accept(r, fs[0]), fs[1..])
  }

  lemma {:induction false} FeedConcat(r: Option<Reader>, a: seq<Fragment>, b: seq<Fragment>)
    ensures Feed(r, a + b) == Feed(Feed(r, a), b)
    decreases a
  {
    hide Accept;
    if a == [] {
      ConcatUnit(b);
    } else {
      FeedConcat(Accept(r, a[0]), a[1..], b);
      assert (a + b)[1..] == a[1..] + b;
    }
  }

  /** Cutting a fragment in two changes nothing for the reader. */
  lemma SplitIsSeamless(r: Option<Reader>, f: Fragment, n: nat)
    requires 0 < n < |f.event.text| && !f.moreText && !f.truncated
    ensures Accept(Accept(r, Head(f, n)), Tail(f, n)) == Accept(r, f)
  {
    var text := f.event.text;
    assert text[..n] + text[n..] == text;
    if Accept(r, Head(f, n)).Some? {
      var es := r.value.events;
      if f.textOffset == 0 {
        assert (es + [Head(f, n).event])[..|es|] == es;
      } else {
        var last := es[|es| - 1];
        ConcatAssociative(last.text, text[..n], text[n..]);
        var grown := last.(text := last.text + text[..n]);
        assert (es[..|es| - 1] + [grown])[..|es| - 1] == es[..|es| - 1];
      }
    }
  }

  /** Whole events, fed in order to an idle reader, are simply appended. */
  lemma {:induction false} FeedWhole(done: seq<Event>, es: seq<Event>)
    ensures Feed(Some(Reader(done, false)), Whole(es)) == Some(Reader(done + es, false))
    decreases es
  {
    if es == [] {
      ConcatUnit(done);
    } else {
      assert Whole(es)[1..] == Whole(es[1..]);
      FeedWhole(done + [es[0]], es[1..]);
      assert done + [es[0]] + es[1..] == done + es;
    }
  }

  // Where cursors point.

  /** A readable index: positions strictly increasing and above 0, texts valid UTF-8. */
  ghost predicate Readable(es: seq<Event>) {
    && (forall i :: 0 <= i < |es| ==> 0 < es[i].at && Utf8.Valid(es[i].text))
    && (forall i, j :: 0 <= i < j < |es| ==> es[i].at < es[j].at)
  }

  lemma {:induction false} FromConcat(a: seq<Event>, b: seq<Event>, from: nat)
    ensures From(a + b, from) == From(a, from) + From(b, from)
  {
    if a == [] {
      ConcatUnit(b);
    } else {
      FromConcat(a[1..], b, from);
      assert (a + b)[1..] == a[1..] + b;
      ConcatAssociative([a[0]], From(a[1..], from), From(b, from));
    }
  }

  lemma {:induction false} FromAll(es: seq<Event>, from: nat)
    requires forall i :: 0 <= i < |es| ==> es[i].at >= from
    ensures From(es, from) == es
  {
    if es != [] { FromAll(es[1..], from); }
  }

  lemma {:induction false} FromNone(es: seq<Event>, from: nat)
    requires forall i :: 0 <= i < |es| ==> es[i].at < from
    ensures From(es, from) == []
  {
    if es != [] { FromNone(es[1..], from); }
  }

  lemma FromSplit(es: seq<Event>, j: nat, from: nat)
    requires j <= |es|
    requires forall i :: 0 <= i < j ==> es[i].at < from
    requires forall i :: j <= i < |es| ==> from <= es[i].at
    ensures From(es, from) == es[j..]
  {
    hide From;
    FromNone(es[..j], from);
    FromAll(es[j..], from);
    FromConcat(es[..j], es[j..], from);
    assert es[..j] + es[j..] == es;
    ConcatUnit(es[j..]);
  }

  lemma Around(es: seq<Event>, j: nat)
    requires Readable(es) && j < |es|
    ensures forall i :: 0 <= i < j ==> es[i].at < es[j].at
    ensures forall i :: j < i < |es| ==> es[j].at + 1 <= es[i].at
  {
  }

  /** Reading from the position of event `j` starts at event `j`. */
  lemma FromEvent(es: seq<Event>, j: nat)
    requires Readable(es) && j < |es|
    ensures From(es, es[j].at) == es[j..]
  {
    Around(es, j);
    hide From, Readable;
    FromSplit(es, j, es[j].at);
  }

  /** Reading from just past the position of event `j` starts at the next one. */
  lemma FromNextEvent(es: seq<Event>, j: nat, next: nat, from: nat)
    requires Readable(es) && j < |es| && next == j + 1 && from == es[j].at + 1
    ensures From(es, from) == es[next..]
  {
    Around(es, j);
    hide From, Readable;
    FromSplit(es, next, from);
  }

  /** On a readable index every selection is a suffix. */
  lemma {:induction false} FromIsSuffix(es: seq<Event>, from: nat) returns (i: nat)
    requires Readable(es)
    ensures i <= |es| && From(es, from) == es[i..]
    ensures i < |es| ==> es[i].at >= from
    ensures forall j :: 0 <= j < i ==> es[j].at < from
  {
    if es == [] {
      i := 0;
    } else if es[0].at >= from {
      i := 0;
      FromAll(es, from);
    } else {
      i := FromIsSuffix(es[1..], from);
      assert es[1..][i..] == es[i + 1..];
      i := i + 1;
    }
  }

  // One page.

  function TextBytes(fs: seq<Fragment>): nat {
    if fs == [] then 0 else |fs[0].event.text| + TextBytes(fs[1..])
  }

  /** Fragments that read to the end of their events, with valid text. */
  ghost predicate Complete(fs: seq<Fragment>) {
    forall i :: 0 <= i < |fs| ==> !fs[i].moreText && !fs[i].truncated && Utf8.Valid(fs[i].event.text)
  }

  /** The page is the first `n` fragments of `rest`, then, when `cut > 0`, the first `cut` bytes of the next. */
  ghost predicate Shape(page: seq<Fragment>, rest: seq<Fragment>, n: nat, cut: nat) {
    && n <= |rest|
    && (cut == 0 ==> page == rest[..n])
    && (cut > 0 ==>
          && n < |rest| && cut < |rest[n].event.text|
          && Utf8.Valid(rest[n].event.text[cut..])
          && page == rest[..n] + [Head(rest[n], cut)])
  }

  /**
   * What one page is: within its limits, a prefix of what is left to read, cut only inside one text at a
   * character boundary; empty only when nothing is left or the budget is below one character; and a page
   * that completes no event carries at least `budget - 3` bytes.
   */
  lemma {:induction false} FillShape(rest: seq<Fragment>, limit: nat, budget: int) returns (n: nat, cut: nat)
    requires Complete(rest)
    ensures Shape(Fill(rest, limit, budget), rest, n, cut)
    ensures |Fill(rest, limit, budget)| <= limit
    ensures 0 <= budget ==> TextBytes(Fill(rest, limit, budget)) <= budget
    ensures n == 0 && cut == 0 ==> rest == [] || limit == 0 || budget < 4
    ensures n == 0 && cut > 0 ==> cut >= budget - 3
    decreases limit
  {
    hide Utf8.Truncate;
    if rest == [] || limit == 0 || budget <= 0 {
      n, cut := 0, 0;
      assert rest[..0] == [];
    } else {
      var text := rest[0].event.text;
      if |text| <= budget {
        n, cut := FillShape(rest[1..], limit - 1, budget - |text|);
        ShapeCons(Fill(rest[1..], limit - 1, budget - |text|), rest, n, cut);
        n := n + 1;
      } else {
        n, cut := 0, |Utf8.Truncate(text, budget)|;
        Utf8.TruncateCuts(text, budget);
        assert rest[..0] == [];
      }
    }
  }

  lemma ShapeCons(page: seq<Fragment>, rest: seq<Fragment>, n: nat, cut: nat)
    requires rest != [] && Shape(page, rest[1..], n, cut)
    ensures Shape([rest[0]] + page, rest, n + 1, cut)
  {
    assert [rest[0]] + rest[1..][..n] == rest[..n + 1];
    if cut > 0 {
      ConcatAssociative([rest[0]], rest[1..][..n], [Head(rest[n + 1], cut)]);
    }
  }

  /** What is left after a page of that shape. */
  function Left(rest: seq<Fragment>, n: nat, cut: nat): seq<Fragment>
    requires n <= |rest| && (cut > 0 ==> n < |rest| && cut < |rest[n].event.text|)
  {
    if cut == 0 then rest[n..] else [Tail(rest[n], cut)] + rest[n + 1..]
  }

  /** Two fragments may stand where one stood, if the reader cannot tell. */
  lemma Splice(r: Option<Reader>, before: seq<Fragment>, f: Fragment, h: Fragment, t: Fragment, after: seq<Fragment>)
    requires Accept(Accept(Feed(r, before), h), t) == Accept(Feed(r, before), f)
    ensures Feed(r, before + ([h, t] + after)) == Feed(r, before + ([f] + after))
  {
    hide Accept;
    FeedConcat(r, before, [h, t] + after);
    FeedConcat(r, before, [f] + after);
    FeedConcat(Feed(r, before), [h, t], after);
    FeedConcat(Feed(r, before), [f], after);
    FeedOne(Feed(r, before), f);
    FeedTwo(Feed(r, before), h, t);
  }

  /** Reading a page and then the rest is reading everything. */
  lemma PageIsSeamless(r: Option<Reader>, page: seq<Fragment>, rest: seq<Fragment>, n: nat, cut: nat)
    requires Complete(rest) && Shape(page, rest, n, cut)
    ensures Feed(r, page + Left(rest, n, cut)) == Feed(r, rest)
  {
    hide Accept, Head, Tail, Feed;
    if cut == 0 {
      assert rest[..n] + rest[n..] == rest;
    } else {
      var h, t := Head(rest[n], cut), Tail(rest[n], cut);
      var before, after := rest[..n], rest[n + 1..];
      SplitIsSeamless(Feed(r, before), rest[n], cut);
      Splice(r, before, rest[n], h, t, after);
      ConcatMiddle(before, h, t, after);
      SplitAt(rest, n);
    }
  }

  lemma FeedOne(r: Option<Reader>, f: Fragment)
    ensures Feed(r, [f]) == Accept(r, f)
  {
    hide Accept;
    assert [f][1..] == [];
  }

  lemma FeedTwo(r: Option<Reader>, f: Fragment, g: Fragment)
    ensures Feed(r, [f, g]) == Accept(Accept(r, f), g)
  {
    hide Accept;
    assert [f, g][1..] == [g];
    FeedOne(Accept(r, f), g);
  }

  lemma {:induction false} TextBytesConcat(a: seq<Fragment>, b: seq<Fragment>)
    ensures TextBytes(a + b) == TextBytes(a) + TextBytes(b)
  {
    if a == [] {
      ConcatUnit(b);
    } else {
      TextBytesConcat(a[1..], b);
      assert (a + b)[1..] == a[1..] + b;
    }
  }

  /** Text bytes are neither lost nor repeated, and a page makes progress in events or in bytes. */
  lemma LeftMeasure(rest: seq<Fragment>, n: nat, cut: nat)
    requires n <= |rest| && (cut > 0 ==> n < |rest| && cut < |rest[n].event.text|)
    ensures |Left(rest, n, cut)| == |rest| - n
    ensures TextBytes(Left(rest, n, cut)) <= TextBytes(rest) - (if n == 0 then cut else 0)
  {
    TextBytesConcat(rest[..n], rest[n..]);
    assert rest[..n] + rest[n..] == rest;
    if cut > 0 {
      assert rest[n..][1..] == rest[n + 1..];
      assert Left(rest, n, cut)[1..] == rest[n + 1..];
    }
  }

  // Following cursors.

  /** What is left, when the events from number `i` on are still to be read. */
  ghost predicate LeavesFrom(rest: seq<Fragment>, es: seq<Event>, i: nat, textOffset: nat) {
    && i <= |es| && |rest| == |es| - i && Complete(rest)
    && (forall m :: 0 < m < |es| - i ==> rest[m] == Fragment(es[i + m], 0, false, false))
    && (i < |es| ==>
          && textOffset <= |es[i].text|
          && rest[0] == Fragment(es[i].(text := es[i].text[textOffset..]), textOffset, false, false))
  }

  /** On a readable index a valid cursor leaves a suffix of the events, the first perhaps in part. */
  lemma RestIsSuffix(es: seq<Event>, cur: Cursor) returns (i: nat)
    requires Readable(es) && ValidCursor(es, cur)
    ensures LeavesFrom(Rest(es, cur), es, i, cur.textOffset)
    ensures i < |es| ==> cur.after <= es[i].at
  {
    i := FromIsSuffix(es, if cur.textOffset == 0 then cur.after + 1 else cur.after);
    hide From;
    assert i < |es| ==> es[i].text[0..] == es[i].text;
  }

  /** The cursor a page returns is valid, and what it leaves is what the page left. */
  lemma NextLeaves(es: seq<Event>, cur: Cursor, page: seq<Fragment>, n: nat, cut: nat)
    requires Readable(es) && ValidCursor(es, cur) && page != [] && Shape(page, Rest(es, cur), n, cut)
    ensures ValidCursor(es, NextCursor(cur, page))
    ensures Rest(es, NextCursor(cur, page)) == Left(Rest(es, cur), n, cut)
  {
    hide From, Rest, Whole, ResumesAt, Utf8.Valid, ValidCursor;
    var rest, next := Rest(es, cur), NextCursor(cur, page);
    var i := RestIsSuffix(es, cur);
    if cut == 0 {
      FromNextEvent(es, i + n - 1, i + n, es[i + n - 1].at + 1);
      NextWhole(rest, es, i, cur.textOffset, page, n);
      NextAfterWhole(es, next, i + n);
    } else {
      FromEvent(es, i + n);
      NextCut(rest, es, i, cur, page, n, cut);
      NextInside(es, next, i + n);
    }
  }

  lemma NextWhole(rest: seq<Fragment>, es: seq<Event>, i: nat, textOffset: nat, page: seq<Fragment>, n: nat)
    requires LeavesFrom(rest, es, i, textOffset) && 0 < n <= |rest| && page == rest[..n]
    ensures page[|page| - 1].event.at == es[i + n - 1].at && !page[|page| - 1].moreText
    ensures rest[n..] == Whole(es[i + n..])
  {
  }

  lemma NextCut(rest: seq<Fragment>, es: seq<Event>, i: nat, cur: Cursor, page: seq<Fragment>, n: nat, cut: nat)
    requires LeavesFrom(rest, es, i, cur.textOffset) && cut > 0 && Shape(page, rest, n, cut)
    ensures var next := NextCursor(cur, page);
      && next.textOffset > 0 && ResumesAt(es[i + n], next)
      && Left(rest, n, cut) == [Tail(Fragment(es[i + n], 0, false, false), next.textOffset)] + Whole(es[i + n + 1..])
  {
    hide Utf8.Valid, Complete;
    var e := es[i + n];
    var offset := if n == 0 then cur.textOffset else 0;
    assert e.text[0..] == e.text;
    assert rest[n].event.text == e.text[offset..];
    assert rest[n].event.text[cut..] == e.text[offset + cut..];
    assert page[|page| - 1] == Head(rest[n], cut);
    TailsAgree(rest, es, i + n, n);
  }

  lemma TailsAgree(rest: seq<Fragment>, es: seq<Event>, j: nat, n: nat)
    requires n <= j < |es| && n < |rest| && |rest| - n == |es| - j
    requires forall m :: n < m < |rest| ==> rest[m] == Fragment(es[j - n + m], 0, false, false)
    ensures rest[n + 1..] == Whole(es[j + 1..])
  {
  }

  lemma NextAfterWhole(es: seq<Event>, next: Cursor, j: nat)
    requires j <= |es| && next.textOffset == 0 && From(es, next.after + 1) == es[j..]
    ensures ValidCursor(es, next) && Rest(es, next) == Whole(es[j..])
  {
    hide From, Whole;
  }

  lemma NextInside(es: seq<Event>, next: Cursor, j: nat)
    requires j < |es| && next.textOffset > 0 && From(es, next.after) == es[j..] && ResumesAt(es[j], next)
    ensures ValidCursor(es, next)
    ensures Rest(es, next) == [Tail(Fragment(es[j], 0, false, false), next.textOffset)] + Whole(es[j + 1..])
  {
    assert Whole(es[j..])[1..] == Whole(es[j + 1..]);
  }

  /** Appending events keeps cursors valid and only adds to what is left. */
  lemma RestGrows(es: seq<Event>, more: seq<Event>, cur: Cursor)
    requires es <= more && Readable(more) && ValidCursor(es, cur)
    ensures ValidCursor(more, cur) && Rest(es, cur) <= Rest(more, cur)
  {
    hide ResumesAt, From;
    assert es + more[|es|..] == more;
    var from := if cur.textOffset == 0 then cur.after + 1 else cur.after;
    FromConcat(es, more[|es|..], from);
    WholeGrows(From(es, from), From(more[|es|..], from));
  }

  lemma WholeGrows(a: seq<Event>, b: seq<Event>)
    ensures Whole(a) <= Whole(a + b)
  {
  }

  lemma ShapeGrows(page: seq<Fragment>, rest: seq<Fragment>, more: seq<Fragment>, n: nat, cut: nat)
    requires rest <= more && Shape(page, rest, n, cut)
    ensures Shape(page, more, n, cut)
  {
    assert more[..n] == rest[..n];
  }

  datatype Call = Call(events: seq<Event>, limit: int)

  /** The calls of one reading see an index that only grows, up to `final`. */
  ghost predicate Growing(calls: seq<Call>, final: seq<Event>) {
    && (forall i :: 0 <= i < |calls| ==> calls[i].events <= final)
    && (forall i, j :: 0 <= i < j < |calls| ==> calls[i].events <= calls[j].events)
  }

  /** What a reader has after a series of calls: whether all were accepted, and how many pages held anything. */
  datatype Reading = Reading(accepted: bool, fragments: seq<Fragment>, cursor: Cursor, pages: nat)

  function Follow(cur: Cursor, calls: seq<Call>, maxBytes: int): Reading
    decreases calls
  {
    if calls == [] then Reading(true, [], cur, 0)
    else match PageOf(calls[0].events, cur, calls[0].limit, maxBytes)
      case Err(_) => Reading(false, [], cur, 0)
      case Ok(page) =>
        var r := Follow(page.next, calls[1..], maxBytes);
        Reading(r.accepted, page.fragments + r.fragments, r.cursor,
                r.pages + if page.fragments == [] then 0 else 1)
  }

  /** Work left, counting an event as much as the text a page is sure to carry. */
  function Measure(rest: seq<Fragment>, maxBytes: int): int
    requires maxBytes >= 4
  {
    |rest| * (maxBytes - 3) + TextBytes(rest)
  }

  lemma RestIsComplete(es: seq<Event>, cur: Cursor)
    requires Readable(es) && ValidCursor(es, cur)
    ensures Complete(Rest(es, cur))
  {
    var i := RestIsSuffix(es, cur);
  }

  lemma NextOfNothing(cur: Cursor)
    ensures NextCursor(cur, []) == cur
  {
  }

  lemma ReadablePrefix(es: seq<Event>, final: seq<Event>)
    requires es <= final && Readable(final)
    ensures Readable(es)
  {
    assert forall i :: 0 <= i < |es| ==> es[i] == final[i];
  }

  lemma ShapeEmpty(page: seq<Fragment>, rest: seq<Fragment>, n: nat, cut: nat)
    requires Shape(page, rest, n, cut)
    ensures page == [] <==> n == 0 && cut == 0
  {
  }

  lemma ShapeBounds(page: seq<Fragment>, rest: seq<Fragment>, n: nat, cut: nat)
    requires Shape(page, rest, n, cut)
    ensures n <= |rest| && (cut > 0 ==> n < |rest| && cut < |rest[n].event.text|)
  {
  }

  /** Inside a text there is always something left. */
  lemma ResumeLeavesSome(es: seq<Event>, cur: Cursor)
    requires ValidCursor(es, cur) && cur.textOffset > 0
    ensures Rest(es, cur) != []
  {
  }

  lemma MeasureDrops(rest: seq<Fragment>, n: nat, cut: nat, maxBytes: int)
    requires maxBytes >= 4
    requires n <= |rest| && (cut > 0 ==> n < |rest| && cut < |rest[n].event.text|)
    requires n == 0 ==> cut >= maxBytes - 3
    ensures Measure(Left(rest, n, cut), maxBytes) <= Measure(rest, maxBytes) - (maxBytes - 3)
  {
    hide Left, TextBytes;
    LeftMeasure(rest, n, cut);
    if n > 0 {
      FewerTimes(|rest|, n, maxBytes - 3);
    }
  }

  lemma FewerTimes(a: nat, n: nat, unit: nat)
    requires 0 < n <= a
    ensures (a - n) * unit <= a * unit - unit
  {
    assert (a - n) * unit + (n - 1) * unit + unit == a * unit;
  }

  /** One accepted page, against the index as it will finally be. */
  lemma PageStep(es: seq<Event>, final: seq<Event>, cur: Cursor, limit: int, maxBytes: int, r: Option<Reader>)
    requires maxBytes >= 4 && es <= final && Readable(final) && ValidCursor(es, cur) && ValidCursor(final, cur)
    ensures var p := PageOf(es, cur, limit, maxBytes);
      && p.Ok?
      && ValidCursor(es, p.value.next) && ValidCursor(final, p.value.next)
      && Feed(r, p.value.fragments + Rest(final, p.value.next)) == Feed(r, Rest(final, cur))
      && |p.value.fragments| <= PageLimit(limit) && TextBytes(p.value.fragments) <= maxBytes
      && (p.value.fragments == [] <==> Rest(es, cur) == [])
      && Measure(Rest(final, p.value.next), maxBytes)
         <= Measure(Rest(final, cur), maxBytes) - (if p.value.fragments == [] then 0 else maxBytes - 3)
  {
    hide Rest, ValidCursor, Fill, Feed, Shape, Left, NextCursor, TextBytes, Measure, Readable, LeavesFrom;
    var rest, all := Rest(es, cur), Rest(final, cur);
    RestGrows(es, final, cur);
    ReadablePrefix(es, final);
    RestIsComplete(es, cur);
    RestIsComplete(final, cur);
    var n, cut := FillShape(rest, PageLimit(limit), maxBytes);
    var page := Fill(rest, PageLimit(limit), maxBytes);
    ShapeGrows(page, rest, all, n, cut);
    ShapeEmpty(page, rest, n, cut);
    ShapeBounds(page, rest, n, cut);
    if cur.textOffset > 0 { ResumeLeavesSome(es, cur); }
    if page == [] {
      NextOfNothing(cur);
      ConcatUnit(all);
    } else {
      NextLeaves(es, cur, page, n, cut);
      NextLeaves(final, cur, page, n, cut);
      PageIsSeamless(r, page, all, n, cut);
      ShapeBounds(page, all, n, cut);
      MeasureDrops(all, n, cut, maxBytes);
    }
  }

  /** `PageStep` along a whole reading. */
  lemma {:induction false} FollowSteps(cur: Cursor, calls: seq<Call>, final: seq<Event>, maxBytes: int,
                                       r: Option<Reader>)
    requires maxBytes >= 4 && Readable(final) && Growing(calls, final) && ValidCursor(final, cur)
    requires calls != [] ==> ValidCursor(calls[0].events, cur)
    ensures var out := Follow(cur, calls, maxBytes);
      && out.accepted
      && ValidCursor(final, out.cursor)
      && (calls != [] ==> ValidCursor(calls[|calls| - 1].events, out.cursor))
      && Feed(r, out.fragments + Rest(final, out.cursor)) == Feed(r, Rest(final, cur))
      && out.pages * (maxBytes - 3) + Measure(Rest(final, out.cursor), maxBytes) <= Measure(Rest(final, cur), maxBytes)
    decreases |calls|
  {
    hide PageOf, Rest, ValidCursor, Feed, Measure, Readable;
    if calls == [] {
      ConcatUnit(Rest(final, cur));
    } else {
      var es := calls[0].events;
      PageStep(es, final, cur, calls[0].limit, maxBytes, r);
      var page := PageOf(es, cur, calls[0].limit, maxBytes).value;
      if |calls| > 1 {
        assert es <= calls[1].events;
        ReadablePrefix(calls[1].events, final);
        RestGrows(es, calls[1].events, page.next);
      }
      FollowSteps(page.next, calls[1..], final, maxBytes, Feed(r, page.fragments));
      var rest := Follow(page.next, calls[1..], maxBytes);
      FeedConcat(r, page.fragments, rest.fragments + Rest(final, rest.cursor));
      FeedConcat(r, page.fragments, Rest(final, page.next));
      ConcatAssociative(page.fragments, rest.fragments, Rest(final, rest.cursor));
      CountPages(rest.pages, maxBytes - 3);
    }
  }

  lemma CountPages(pages: nat, unit: int)
    ensures (pages + 1) * unit == pages * unit + unit
  {
  }

  /** At the start everything is left, as whole events. */
  lemma StartLeavesAll(es: seq<Event>)
    requires Readable(es)
    ensures ValidCursor(es, START) && Rest(es, START) == Whole(es)
  {
    FromAll(es, 1);
  }

  function EventBytes(es: seq<Event>): nat {
    if es == [] then 0 else |es[0].text| + EventBytes(es[1..])
  }

  lemma {:induction false} WholeBytes(es: seq<Event>)
    ensures TextBytes(Whole(es)) == EventBytes(es)
  {
    if es != [] {
      WholeBytes(es[1..]);
      assert Whole(es)[1..] == Whole(es[1..]);
    }
  }

  /**
   * The reading theorem. A reader that starts at (0, 0) and follows the returned cursors, with any limit
   * per call and any events appended between calls, is never refused; and once a page comes back empty it
   * holds every event, in order, each text complete, with nothing lost or repeated.
   */
  lemma FollowingCursorsReadsAll(calls: seq<Call>, final: seq<Event>, limit: int, maxBytes: int)
    requires maxBytes >= 4 && Readable(final) && Growing(calls, final)
    ensures var out := Follow(START, calls, maxBytes);
      var last := PageOf(final, out.cursor, limit, maxBytes);
      && out.accepted
      && last.Ok?
      && (last.value.fragments == [] ==>
            Feed(Some(Reader([], false)), out.fragments) == Some(Reader(final, false)))
  {
    var r := Some(Reader([], false));
    var out := Follow(START, calls, maxBytes);
    StartLeavesAll(final);
    if calls != [] {
      ReadablePrefix(calls[0].events, final);
      StartLeavesAll(calls[0].events);
    }
    FollowSteps(START, calls, final, maxBytes, r);
    hide PageOf, Rest, ValidCursor, Feed, Follow;
    PageStep(final, final, out.cursor, limit, maxBytes, r);
    FeedWhole([], final);
    ConcatUnit(final);
    ConcatUnit(out.fragments);
  }

  /**
   * The page bound: reading N events with B bytes of text takes at most N + B / (maxBytes - 3) pages that
   * hold anything, however small the limits.
   */
  lemma ReadingTakesFewPages(calls: seq<Call>, final: seq<Event>, maxBytes: int)
    requires maxBytes >= 4 && Readable(final) && Growing(calls, final)
    ensures Follow(START, calls, maxBytes).pages <= |final| + EventBytes(final) / (maxBytes - 3)
  {
    StartLeavesAll(final);
    if calls != [] {
      ReadablePrefix(calls[0].events, final);
      StartLeavesAll(calls[0].events);
    }
    FollowSteps(START, calls, final, maxBytes, None);
    WholeBytes(final);
    var out := Follow(START, calls, maxBytes);
    MeasurePositive(Rest(final, out.cursor), maxBytes);
    DivideBound(out.pages, |final|, EventBytes(final), maxBytes - 3);
  }

  lemma MeasurePositive(rest: seq<Fragment>, maxBytes: int)
    requires maxBytes >= 4
    ensures Measure(rest, maxBytes) >= 0
  {
    assert |rest| * (maxBytes - 3) >= 0;
  }

  lemma DivideBound(pages: nat, events: nat, bytes: nat, unit: nat)
    requires unit > 0 && pages * unit <= events * unit + bytes
    ensures pages <= events + bytes / unit
  {
    var more := pages - events - bytes / unit;
    assert bytes == (bytes / unit) * unit + bytes % unit;
    assert more * unit == pages * unit - events * unit - (bytes / unit) * unit;
    if more >= 1 {
      AtLeastOne(more, unit);
    }
  }

  lemma AtLeastOne(more: nat, unit: nat)
    requires more >= 1
    ensures more * unit >= unit
  {
  }
}
