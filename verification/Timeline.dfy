/**
 * The wall-clock sweep of one worker's day (linear_timeline.py). Times are integer microseconds, the
 * resolution of the source's timestamps, so an instant `t` stands for the tick from `t` to `t + 1`.
 */
module Timeline {
  import opened Relational
  import opened Sums

  /** `Idle` never labels an interval in practice; one that does only contributes boundary points. */
  datatype State = Working | Paused | EndedShift | Idle

  datatype Interval = Interval(
    id: int,
    state: State,
    reason: Option<string>,
    transition: Option<string>,
    enteredAt: int,
    exitedAt: Option<int>,
    priority: int)

  /** The window swept, and the moment at which open intervals are cut off. */
  datatype Window = Window(start: int, end: int, now: int)

  const UNSPECIFIED := "unspecified"

  // ----- what the timeline means: one effective state per instant -----

  function Start(iv: Interval, w: Window): int {
    if iv.enteredAt < w.start then w.start else iv.enteredAt
  }

  function End(iv: Interval, w: Window): int {
    var end := if iv.exitedAt.Some? then iv.exitedAt.value else w.now;
    if end > w.end then w.end else end
  }

  predicate Live(iv: Interval, w: Window) {
    Start(iv, w) < End(iv, w)
  }

  /** Work began after `moment` and no later than `t`. */
  predicate ResumedIn(ivs: seq<Interval>, w: Window, moment: int, t: int) {
    exists k :: 0 <= k < |ivs| && ivs[k].state == Working && Live(ivs[k], w) && moment < Start(ivs[k], w) <= t
  }

  /** The interval counts at `t`: it is open, and if it is a pause the worker has not resumed work since it began. */
  predicate ActiveAt(ivs: seq<Interval>, w: Window, iv: Interval, t: int) {
    && Start(iv, w) <= t < End(iv, w)
    && (iv.state == Paused ==> !ResumedIn(ivs, w, Start(iv, w), t))
  }

  predicate Present(ivs: seq<Interval>, w: Window, s: State, t: int) {
    exists k :: 0 <= k < |ivs| && ivs[k].state == s && ActiveAt(ivs, w, ivs[k], t)
  }

  /** Work wins over an active pause, a pause over the end of the shift, and nothing at all is idle time. */
  function StateAt(ivs: seq<Interval>, w: Window, t: int): State {
    if Present(ivs, w, Working, t) then Working
    else if Present(ivs, w, Paused, t) then Paused
    else if Present(ivs, w, EndedShift, t) then EndedShift
    else Idle
  }

  /** Ownership order between pauses: higher priority, then earlier start, then smaller record id. */
  predicate Precedes(a: Interval, b: Interval) {
    || a.priority > b.priority
    || (a.priority == b.priority && a.enteredAt < b.enteredAt)
    || (a.priority == b.priority && a.enteredAt == b.enteredAt && a.id < b.id)
  }

  /** `ivs[k]` is a pause active at `t` that no other active pause precedes. */
  predicate OwnsAt(ivs: seq<Interval>, w: Window, k: nat, t: int)
    requires k < |ivs|
  {
    && ivs[k].state == Paused && ActiveAt(ivs, w, ivs[k], t)
    && forall i :: 0 <= i < |ivs| && ivs[i].state == Paused && ActiveAt(ivs, w, ivs[i], t) ==> !Precedes(ivs[i], ivs[k])
  }

  /** What a segment says about its instants. */
  datatype Label = Label(state: State, reason: Option<string>, transition: Option<string>, priority: int)

  function Plain(s: State): Label {
    Label(s, None, None, 0)
  }

  function PauseLabel(iv: Interval): Label {
    Label(Paused,
          if iv.reason.None? && iv.transition.None? then Some(UNSPECIFIED) else iv.reason,
          iv.transition, iv.priority)
  }

  predicate LabelledBy(ivs: seq<Interval>, w: Window, t: int, tag: Label) {
    && tag.state == StateAt(ivs, w, t)
    && (tag.state != Paused ==> tag == Plain(tag.state))
    && (tag.state == Paused ==> exists k: nat :: k < |ivs| && OwnsAt(ivs, w, k, t) && tag == PauseLabel(ivs[k]))
  }

  // ----- the sweep -----

  /** An interval cut to the window; `activeEnd` is where a pause stops counting. */
  datatype Entry = Entry(start: int, end: int, activeEnd: int, interval: Interval)

  /** The first point strictly after `moment`. */
  function FirstAfter(points: seq<int>, moment: int): (r: Option<int>)
    ensures r.None? ==> forall p :: p in points ==> p <= moment
    ensures r.Some? ==> r.value in points && moment < r.value && forall p :: p in points && moment < p ==> r.value <= p
  {
    if points == [] then None
    else
      var rest := FirstAfter(points[1..], moment);
      assert points == [points[0]] + points[1..];
      if moment < points[0] && (rest.None? || points[0] < rest.value) then Some(points[0]) else rest
  }

  function WorkingStarts(ivs: seq<Interval>, w: Window): (r: seq<int>)
    ensures forall p :: p in r <==>
              exists k :: 0 <= k < |ivs| && ivs[k].state == Working && Live(ivs[k], w) && Start(ivs[k], w) == p
  {
    if ivs == [] then []
    else
      var last := |ivs| - 1;
      var rest := WorkingStarts(ivs[..last], w);
      if ivs[last].state == Working && Live(ivs[last], w) then rest + [Start(ivs[last], w)] else rest
  }

  function MakeEntry(starts: seq<int>, w: Window, iv: Interval): Entry {
    var end := End(iv, w);
    var resume := FirstAfter(starts, Start(iv, w));
    Entry(Start(iv, w), end,
          if iv.state == Paused && resume.Some? && resume.value < end then resume.value else end,
          iv)
  }

  function Entries(ivs: seq<Interval>, w: Window, starts: seq<int>): (es: seq<Entry>)
    ensures forall e :: e in es <==> exists k :: 0 <= k < |ivs| && Live(ivs[k], w) && MakeEntry(starts, w, ivs[k]) == e
  {
    if ivs == [] then []
    else
      var last := |ivs| - 1;
      var rest := Entries(ivs[..last], w, starts);
      if Live(ivs[last], w) then rest + [MakeEntry(starts, w, ivs[last])] else rest
  }

  function Spanning(es: seq<Entry>, s: State, left: int, right: int): (r: seq<Entry>)
    ensures forall e :: e in r <==> e in es && e.interval.state == s && e.start <= left && e.activeEnd >= right
  {
    if es == [] then []
    else
      var rest := Spanning(es[1..], s, left, right);
      if es[0].interval.state == s && es[0].start <= left && es[0].activeEnd >= right then [es[0]] + rest else rest
  }

  function Owner(es: seq<Entry>): (o: Entry)
    requires es != []
    ensures o in es
    ensures forall e :: e in es ==> !Precedes(e.interval, o.interval)
  {
    if |es| == 1 then es[0]
    else
      var o := Owner(es[..|es| - 1]);
      var e := es[|es| - 1];
      if Precedes(e.interval, o.interval) then e else o
  }

  function Ids(es: seq<Entry>): (r: set<int>)
    ensures forall i :: i in r <==> exists e :: e in es && e.interval.id == i
  {
    set e | e in es :: e.interval.id
  }

  /** One run of a single effective state; `owner` is the pause owner where the run begins. */
  datatype Segment = Segment(start: int, end: int, tag: Label, owner: Option<int>, ids: set<int>)

  function Classify(es: seq<Entry>, left: int, right: int): (r: Segment)
    ensures r.start == left && r.end == right
  {
    var working := Spanning(es, Working, left, right);
    var pauses := Spanning(es, Paused, left, right);
    var ended := Spanning(es, EndedShift, left, right);
    if working != [] then Segment(left, right, Plain(Working), None, Ids(working))
    else if pauses != [] then
      var o := Owner(pauses).interval;
      Segment(left, right, PauseLabel(o), Some(o.id), Ids(pauses))
    else if ended != [] then Segment(left, right, Plain(EndedShift), None, Ids(ended))
    else Segment(left, right, Plain(Idle), None, {})
  }

  ghost predicate Increasing(s: seq<int>) {
    forall i, j :: 0 <= i < j < |s| ==> s[i] < s[j]
  }

  lemma HeadComesFirst(s: seq<int>, p: int, rest: seq<int>)
    requires s != [] && Increasing(s) && s[0] < p
    requires forall x :: x in rest ==> x in s[1..] || x == p
    ensures forall i :: 0 <= i < |rest| ==> s[0] < rest[i]
  {
    forall i | 0 <= i < |rest| ensures s[0] < rest[i] {
      assert rest[i] in rest;
    }
  }

  function Insert(p: int, s: seq<int>): (r: seq<int>)
    requires Increasing(s)
    ensures Increasing(r)
    ensures forall x :: x in r <==> x in s || x == p
  {
    if s == [] then [p]
    else if p < s[0] then [p] + s
    else if p == s[0] then s
    else
      var rest := Insert(p, s[1..]);
      assert s == [s[0]] + s[1..];
      HeadComesFirst(s, p, rest);
      [s[0]] + rest
  }

  function BreakPoints(breaks: seq<int>, w: Window): (r: seq<int>)
    ensures Increasing(r)
    ensures forall p :: p in r <==> p in breaks && w.start <= p <= w.end
  {
    if breaks == [] then []
    else
      var rest := BreakPoints(breaks[1..], w);
      assert breaks == [breaks[0]] + breaks[1..];
      if w.start <= breaks[0] <= w.end then Insert(breaks[0], rest) else rest
  }

  /** The sorted set of all starts, ends and hard breaks inside the window. */
  function Points(es: seq<Entry>, breaks: seq<int>, w: Window): (r: seq<int>)
    ensures Increasing(r)
  {
    if es == [] then BreakPoints(breaks, w)
    else
      var rest := Points(es[1..], breaks, w);
      assert es == [es[0]] + es[1..];
      Insert(es[0].start, Insert(es[0].end, rest))
  }

  /** The edges of every entry are boundary points. */
  lemma {:induction false} EdgesArePoints(es: seq<Entry>, breaks: seq<int>, w: Window, e: Entry)
    requires e in es
    ensures e.start in Points(es, breaks, w) && e.end in Points(es, breaks, w)
  {
    if e != es[0] {
      assert es == [es[0]] + es[1..];
      EdgesArePoints(es[1..], breaks, w, e);
    }
  }

  /** Hard breaks inside the window are boundary points. */
  lemma {:induction false} BreaksArePoints(es: seq<Entry>, breaks: seq<int>, w: Window, p: int)
    requires p in breaks && w.start <= p <= w.end
    ensures p in Points(es, breaks, w)
  {
    if es != [] {
      BreaksArePoints(es[1..], breaks, w, p);
    }
  }

  /** Every boundary point is a break in the window or the edge of an entry. */
  lemma {:induction false} PointOrigin(es: seq<Entry>, breaks: seq<int>, w: Window, p: int)
    requires p in Points(es, breaks, w)
    ensures (p in breaks && w.start <= p <= w.end) || exists e :: e in es && (p == e.start || p == e.end)
  {
    if es != [] && p != es[0].start && p != es[0].end {
      PointOrigin(es[1..], breaks, w, p);
      assert es == [es[0]] + es[1..];
    }
  }

  function Gaps(es: seq<Entry>, points: seq<int>): (r: seq<Segment>)
    ensures |r| == if |points| == 0 then 0 else |points| - 1
    ensures forall i :: 0 <= i < |r| ==> r[i] == Classify(es, points[i], points[i + 1])
    ensures forall i :: 0 <= i < |r| ==> r[i].start == points[i] && r[i].end == points[i + 1]
  {
    if |points| < 2 then []
    else Gaps(es, points[..|points| - 1]) + [Classify(es, points[|points| - 2], points[|points| - 1])]
  }

  /** One raw segment for each gap between neighbouring boundary points; none without entries. */
  function Sweep(ivs: seq<Interval>, w: Window, breaks: seq<int>): seq<Segment> {
    var es := Entries(ivs, w, WorkingStarts(ivs, w));
    if es == [] then [] else Gaps(es, Points(es, breaks, w))
  }

  predicate Joins(a: Segment, b: Segment, breaks: seq<int>) {
    a.tag == b.tag && b.start !in breaks
  }

  function Extend(runs: seq<Segment>, s: Segment, breaks: seq<int>): seq<Segment> {
    if runs != [] && Joins(runs[|runs| - 1], s, breaks) then
      var run := runs[|runs| - 1];
      runs[..|runs| - 1] + [run.(end := s.end, ids := run.ids + s.ids)]
    else
      runs + [s]
  }

  /** Merge neighbours that say the same, never across a hard break. */
  function Merge(raw: seq<Segment>, breaks: seq<int>): seq<Segment> {
    if raw == [] then [] else Extend(Merge(raw[..|raw| - 1], breaks), raw[|raw| - 1], breaks)
  }

  function Segments(ivs: seq<Interval>, w: Window, breaks: seq<int>): seq<Segment> {
    Merge(Sweep(ivs, w, breaks), breaks)
  }

  // ----- the sweep gives every instant its effective state -----

  function EntriesOf(ivs: seq<Interval>, w: Window): seq<Entry> {
    Entries(ivs, w, WorkingStarts(ivs, w))
  }

  /** Where a pause stops counting is a boundary point, because it is its own end or the start of some work. */
  lemma ActiveEndIsPoint(ivs: seq<Interval>, w: Window, breaks: seq<int>, e: Entry)
    requires e in EntriesOf(ivs, w)
    ensures e.activeEnd in Points(EntriesOf(ivs, w), breaks, w)
  {
    var es := EntriesOf(ivs, w);
    var starts := WorkingStarts(ivs, w);
    if e.activeEnd != e.end {
      var k :| 0 <= k < |ivs| && ivs[k].state == Working && Live(ivs[k], w) && Start(ivs[k], w) == e.activeEnd;
      assert MakeEntry(starts, w, ivs[k]) in es;
      EdgesArePoints(es, breaks, w, MakeEntry(starts, w, ivs[k]));
    } else {
      EdgesArePoints(es, breaks, w, e);
    }
  }

  /** `left` and `right` are boundary points with none between them. */
  ghost predicate Adjacent(points: seq<int>, left: int, right: int) {
    left in points && right in points && left < right && forall p :: p in points ==> p <= left || right <= p
  }

  /** A pause that has not been resumed by `t` is one whose next resume, if any, comes after `t`. */
  lemma ResumeIsFirst(ivs: seq<Interval>, w: Window, moment: int, t: int)
    ensures var resume := FirstAfter(WorkingStarts(ivs, w), moment);
            ResumedIn(ivs, w, moment, t) <==> resume.Some? && resume.value <= t
  {
    var starts := WorkingStarts(ivs, w);
    var resume := FirstAfter(starts, moment);
    if ResumedIn(ivs, w, moment, t) {
      var i :| 0 <= i < |ivs| && ivs[i].state == Working && Live(ivs[i], w) && moment < Start(ivs[i], w) <= t;
      assert Start(ivs[i], w) in starts;
    }
    if resume.Some? && resume.value <= t {
      assert resume.value in starts;
    }
  }

  lemma ActiveBefore(ivs: seq<Interval>, w: Window, iv: Interval, t: int)
    ensures var e := MakeEntry(WorkingStarts(ivs, w), w, iv); ActiveAt(ivs, w, iv, t) <==> e.start <= t < e.activeEnd
  {
    ResumeIsFirst(ivs, w, Start(iv, w), t);
  }

  /** An entry spans the gap exactly when its interval counts at each instant of the gap. */
  lemma SpansIffActive(ivs: seq<Interval>, w: Window, breaks: seq<int>, left: int, right: int, t: int, k: int)
    requires Adjacent(Points(EntriesOf(ivs, w), breaks, w), left, right) && left <= t < right
    requires 0 <= k < |ivs| && Live(ivs[k], w)
    ensures var e := MakeEntry(WorkingStarts(ivs, w), w, ivs[k]);
            (e.start <= left && e.activeEnd >= right) <==> ActiveAt(ivs, w, ivs[k], t)
  {
    var e := MakeEntry(WorkingStarts(ivs, w), w, ivs[k]);
    assert e in EntriesOf(ivs, w);
    EdgesArePoints(EntriesOf(ivs, w), breaks, w, e);
    ActiveEndIsPoint(ivs, w, breaks, e);
    ActiveBefore(ivs, w, ivs[k], t);
  }

  /** The owner picked for a gap owns every instant of it. */
  lemma GapOwner(ivs: seq<Interval>, w: Window, breaks: seq<int>, left: int, right: int, t: int)
    requires Adjacent(Points(EntriesOf(ivs, w), breaks, w), left, right) && left <= t < right
    requires Spanning(EntriesOf(ivs, w), Paused, left, right) != []
    ensures var o := Owner(Spanning(EntriesOf(ivs, w), Paused, left, right)).interval;
            exists k: nat :: k < |ivs| && OwnsAt(ivs, w, k, t) && ivs[k] == o
  {
    var starts := WorkingStarts(ivs, w);
    var pauses := Spanning(EntriesOf(ivs, w), Paused, left, right);
    var o := Owner(pauses);
    var k :| 0 <= k < |ivs| && Live(ivs[k], w) && MakeEntry(starts, w, ivs[k]) == o;
    SpansIffActive(ivs, w, breaks, left, right, t, k);
    forall i | 0 <= i < |ivs| && ivs[i].state == Paused && ActiveAt(ivs, w, ivs[i], t)
      ensures !Precedes(ivs[i], ivs[k])
    {
      SpansIffActive(ivs, w, breaks, left, right, t, i);
      assert MakeEntry(starts, w, ivs[i]) in pauses;
    }
    assert OwnsAt(ivs, w, k, t);
  }

  lemma SpanningIffPresent(ivs: seq<Interval>, w: Window, breaks: seq<int>, left: int, right: int, t: int, s: State)
    requires Adjacent(Points(EntriesOf(ivs, w), breaks, w), left, right) && left <= t < right
    ensures Spanning(EntriesOf(ivs, w), s, left, right) != [] <==> Present(ivs, w, s, t)
  {
    var es := EntriesOf(ivs, w);
    var starts := WorkingStarts(ivs, w);
    var found := Spanning(es, s, left, right);
    if found != [] {
      assert found[0] in found;
      var k :| 0 <= k < |ivs| && Live(ivs[k], w) && MakeEntry(starts, w, ivs[k]) == found[0];
      SpansIffActive(ivs, w, breaks, left, right, t, k);
    }
    if Present(ivs, w, s, t) {
      var k :| 0 <= k < |ivs| && ivs[k].state == s && ActiveAt(ivs, w, ivs[k], t);
      SpansIffActive(ivs, w, breaks, left, right, t, k);
      assert MakeEntry(starts, w, ivs[k]) in found;
    }
  }

  /** Every instant of a gap has the state, and every pause the owner, that the gap was given. */
  lemma GapMeaning(ivs: seq<Interval>, w: Window, breaks: seq<int>, left: int, right: int, t: int)
    requires Adjacent(Points(EntriesOf(ivs, w), breaks, w), left, right) && left <= t < right
    ensures LabelledBy(ivs, w, t, Classify(EntriesOf(ivs, w), left, right).tag)
  {
    SpanningIffPresent(ivs, w, breaks, left, right, t, Working);
    SpanningIffPresent(ivs, w, breaks, left, right, t, Paused);
    SpanningIffPresent(ivs, w, breaks, left, right, t, EndedShift);
    if Spanning(EntriesOf(ivs, w), Paused, left, right) != [] {
      GapOwner(ivs, w, breaks, left, right, t);
    }
  }

  /** The segments follow each other without gap or overlap from `lo` to `hi`. */
  ghost predicate Tiles(segs: seq<Segment>, lo: int, hi: int) {
    if segs == [] then lo == hi
    else
      var last := segs[|segs| - 1];
      last.start < last.end && last.end == hi && Tiles(segs[..|segs| - 1], lo, last.start)
  }

  /** Neighbours in a tiling share their boundary, and every segment is proper and inside the span. */
  lemma {:induction false} TilesAt(segs: seq<Segment>, lo: int, hi: int)
    requires Tiles(segs, lo, hi)
    ensures lo <= hi
    ensures forall i :: 0 <= i < |segs| ==> lo <= segs[i].start < segs[i].end <= hi
    ensures forall i, j :: 0 <= i < j < |segs| && j == i + 1 ==> segs[i].end == segs[j].start
    ensures segs != [] ==> segs[0].start == lo && segs[|segs| - 1].end == hi
  {
    if segs != [] {
      var n := |segs| - 1;
      TilesAt(segs[..n], lo, segs[n].start);
      assert forall i :: 0 <= i < n ==> segs[i] == segs[..n][i];
    }
  }

  /** Each segment says of every one of its instants something that holds there. */
  ghost predicate Truthful(segs: seq<Segment>, holds: (int, Label) -> bool) {
    forall i, t :: 0 <= i < |segs| && segs[i].start <= t < segs[i].end ==> holds(t, segs[i].tag)
  }

  function Meaning(ivs: seq<Interval>, w: Window): (int, Label) -> bool {
    (t, tag) => LabelledBy(ivs, w, t, tag)
  }

  lemma {:induction false} GapsTile(raw: seq<Segment>, points: seq<int>)
    requires Increasing(points) && |points| >= 1 && |raw| == |points| - 1
    requires forall i :: 0 <= i < |raw| ==> raw[i].start == points[i] && raw[i].end == points[i + 1]
    ensures Tiles(raw, points[0], points[|points| - 1])
  {
    if raw != [] {
      GapsTile(raw[..|raw| - 1], points[..|raw|]);
    }
  }

  lemma ConsecutiveIsAdjacent(points: seq<int>, i: int)
    requires Increasing(points) && 0 <= i < |points| - 1
    ensures Adjacent(points, points[i], points[i + 1])
  {
    forall p | p in points ensures p <= points[i] || points[i + 1] <= p {
      var j :| 0 <= j < |points| && points[j] == p;
    }
  }

  /** The records reach over at least one instant. */
  lemma SpanIsProper(es: seq<Entry>, breaks: seq<int>, w: Window)
    requires es != [] && es[0].start < es[0].end
    ensures |Points(es, breaks, w)| >= 2
  {
    EdgesArePoints(es, breaks, w, es[0]);
  }

  /** Raw segments partition the span of the records. */
  lemma SweepTiles(ivs: seq<Interval>, w: Window, breaks: seq<int>)
    requires EntriesOf(ivs, w) != []
    ensures var points := Points(EntriesOf(ivs, w), breaks, w);
            && |points| >= 2
            && Tiles(Sweep(ivs, w, breaks), points[0], points[|points| - 1])
  {
    var es := EntriesOf(ivs, w);
    assert es[0] in es;
    SpanIsProper(es, breaks, w);
    GapsTile(Gaps(es, Points(es, breaks, w)), Points(es, breaks, w));
  }

  /** Raw segments are right at every instant. */
  lemma SweepMeaning(ivs: seq<Interval>, w: Window, breaks: seq<int>)
    ensures Truthful(Sweep(ivs, w, breaks), Meaning(ivs, w))
  {
    var es := EntriesOf(ivs, w);
    var points := Points(es, breaks, w);
    var raw := Sweep(ivs, w, breaks);
    forall i, t | 0 <= i < |raw| && raw[i].start <= t < raw[i].end
      ensures Meaning(ivs, w)(t, raw[i].tag)
    {
      assert raw[i].start == points[i] && raw[i].end == points[i + 1];
      ConsecutiveIsAdjacent(points, i);
      GapMeaning(ivs, w, breaks, points[i], points[i + 1], t);
    }
  }

  // ----- merging keeps the meaning -----

  /** Neighbours that say the same are separated by a hard break, and by nothing else. */
  ghost predicate Canonical(segs: seq<Segment>, breaks: seq<int>) {
    forall i :: 0 < i < |segs| && segs[i - 1].tag == segs[i].tag ==> segs[i].start in breaks
  }

  lemma ExtendKeepsMeaning(runs: seq<Segment>, s: Segment, breaks: seq<int>, lo: int, holds: (int, Label) -> bool)
    requires Tiles(runs, lo, s.start) && Truthful(runs, holds) && Canonical(runs, breaks)
    requires s.start < s.end && Truthful([s], holds)
    ensures var r := Extend(runs, s, breaks);
            r != [] && Tiles(r, lo, s.end) && Truthful(r, holds) && Canonical(r, breaks)
  {
    var r := Extend(runs, s, breaks);
    var n := |r| - 1;
    assert r[..n] == runs[..n];
    assert forall i :: 0 <= i < n ==> r[i] == runs[i];
    forall t | r[n].start <= t < r[n].end ensures holds(t, r[n].tag) {
      if s.start <= t {
        assert holds(t, [s][0].tag);
      } else {
        assert holds(t, runs[n].tag);
      }
    }
  }

  lemma {:induction false} MergeKeepsMeaning(raw: seq<Segment>, breaks: seq<int>, lo: int, hi: int,
                                             holds: (int, Label) -> bool)
    requires Tiles(raw, lo, hi) && Truthful(raw, holds)
    ensures Tiles(Merge(raw, breaks), lo, hi)
    ensures Truthful(Merge(raw, breaks), holds)
    ensures Canonical(Merge(raw, breaks), breaks)
    ensures raw != [] ==> Merge(raw, breaks) != []
  {
    if raw != [] {
      var last := raw[|raw| - 1];
      var front := raw[..|raw| - 1];
      assert Truthful(front, holds);
      MergeKeepsMeaning(front, breaks, lo, last.start, holds);
      ExtendKeepsMeaning(Merge(front, breaks), last, breaks, lo, holds);
    }
  }

  /** No segment reaches over the break on both sides. */
  ghost predicate RespectsBreak(segs: seq<Segment>, p: int) {
    forall i :: 0 <= i < |segs| ==> p <= segs[i].start || segs[i].end <= p
  }

  lemma ExtendRespectsBreak(runs: seq<Segment>, s: Segment, breaks: seq<int>, p: int)
    requires RespectsBreak(runs, p) && (p <= s.start || s.end <= p) && p in breaks
    requires runs != [] ==> runs[|runs| - 1].end == s.start
    ensures RespectsBreak(Extend(runs, s, breaks), p)
  {
    var r := Extend(runs, s, breaks);
    forall i | 0 <= i < |r| - 1 ensures p <= r[i].start || r[i].end <= p {
      assert r[i] == runs[i];
    }
  }

  lemma {:induction false} MergeRespectsBreak(raw: seq<Segment>, breaks: seq<int>, lo: int, hi: int, p: int)
    requires Tiles(raw, lo, hi) && RespectsBreak(raw, p) && p in breaks
    ensures RespectsBreak(Merge(raw, breaks), p)
    ensures var m := Merge(raw, breaks); m != [] ==> m[|m| - 1].end == hi
  {
    if raw != [] {
      var last := raw[|raw| - 1];
      var front := raw[..|raw| - 1];
      assert RespectsBreak(front, p);
      MergeRespectsBreak(front, breaks, lo, last.start, p);
      ExtendRespectsBreak(Merge(front, breaks), last, breaks, p);
    }
  }

  lemma GapsRespectPoint(es: seq<Entry>, points: seq<int>, p: int)
    requires Increasing(points) && p in points
    ensures RespectsBreak(Gaps(es, points), p)
  {
    var k :| 0 <= k < |points| && points[k] == p;
    var raw := Gaps(es, points);
    forall i | 0 <= i < |raw| ensures p <= raw[i].start || raw[i].end <= p {
      assert i < k ==> points[i + 1] == p || points[i + 1] < points[k];
    }
  }

  /** A hard break inside the window always starts a new run: no run of the timeline straddles it. */
  lemma BreaksSeparateRuns(ivs: seq<Interval>, w: Window, breaks: seq<int>, p: int)
    requires EntriesOf(ivs, w) != [] && p in breaks && w.start <= p <= w.end
    ensures RespectsBreak(Segments(ivs, w, breaks), p)
  {
    var es := EntriesOf(ivs, w);
    SweepTiles(ivs, w, breaks);
    BreaksArePoints(es, breaks, w, p);
    GapsRespectPoint(es, Points(es, breaks, w), p);
    var points := Points(es, breaks, w);
    MergeRespectsBreak(Sweep(ivs, w, breaks), breaks, points[0], points[|points| - 1], p);
  }

  /** First and last instant that the records (and the hard breaks) reach. */
  function Span(ivs: seq<Interval>, w: Window, breaks: seq<int>): (int, int) {
    var points := Points(EntriesOf(ivs, w), breaks, w);
    if points == [] then (w.start, w.start) else (points[0], points[|points| - 1])
  }

  /**
   * The timeline is the partition of the worker's span into maximal runs of one effective state,
   * and each run says of each of its instants exactly what the records say.
   */
  lemma SegmentsMeaning(ivs: seq<Interval>, w: Window, breaks: seq<int>)
    requires EntriesOf(ivs, w) != []
    ensures var (lo, hi) := Span(ivs, w, breaks); lo < hi && Tiles(Segments(ivs, w, breaks), lo, hi)
    ensures Truthful(Segments(ivs, w, breaks), Meaning(ivs, w))
    ensures Canonical(Segments(ivs, w, breaks), breaks)
  {
    var (lo, hi) := Span(ivs, w, breaks);
    SweepTiles(ivs, w, breaks);
    SweepMeaning(ivs, w, breaks);
    MergeKeepsMeaning(Sweep(ivs, w, breaks), breaks, lo, hi, Meaning(ivs, w));
  }

  // ----- where the timeline begins and ends -----

  predicate InWindow(breaks: seq<int>, w: Window, p: int) {
    p in breaks && w.start <= p <= w.end
  }

  /** `p` is the least of the entries' starts and the hard breaks. */
  ghost predicate Opens(es: seq<Entry>, breaks: seq<int>, w: Window, p: int) {
    && ((exists e :: e in es && e.start == p) || InWindow(breaks, w, p))
    && (forall e :: e in es ==> p <= e.start)
    && (forall b :: InWindow(breaks, w, b) ==> p <= b)
  }

  /** `p` is the greatest of the entries' ends and the hard breaks. */
  ghost predicate Closes(es: seq<Entry>, breaks: seq<int>, w: Window, p: int) {
    && ((exists e :: e in es && e.end == p) || InWindow(breaks, w, p))
    && (forall e :: e in es ==> e.end <= p)
    && (forall b :: InWindow(breaks, w, b) ==> b <= p)
  }

  lemma FirstAndLast(points: seq<int>, p: int)
    requires Increasing(points) && p in points
    ensures points[0] <= p <= points[|points| - 1]
  {
  }

  lemma FirstPointOpens(es: seq<Entry>, breaks: seq<int>, w: Window)
    requires Points(es, breaks, w) != [] && forall e :: e in es ==> e.start < e.end
    ensures Opens(es, breaks, w, Points(es, breaks, w)[0])
  {
    var lo := Points(es, breaks, w)[0];
    forall e | e in es ensures lo <= e.start {
      EdgesArePoints(es, breaks, w, e);
      FirstAndLast(Points(es, breaks, w), e.start);
    }
    forall b | InWindow(breaks, w, b) ensures lo <= b {
      BreaksArePoints(es, breaks, w, b);
      FirstAndLast(Points(es, breaks, w), b);
    }
    PointOrigin(es, breaks, w, lo);
  }

  lemma LastPointCloses(es: seq<Entry>, breaks: seq<int>, w: Window)
    requires Points(es, breaks, w) != [] && forall e :: e in es ==> e.start < e.end
    ensures var points := Points(es, breaks, w); Closes(es, breaks, w, points[|points| - 1])
  {
    var points := Points(es, breaks, w);
    var hi := points[|points| - 1];
    forall e | e in es ensures e.end <= hi {
      EdgesArePoints(es, breaks, w, e);
      FirstAndLast(points, e.end);
    }
    forall b | InWindow(breaks, w, b) ensures b <= hi {
      BreaksArePoints(es, breaks, w, b);
      FirstAndLast(points, b);
    }
    PointOrigin(es, breaks, w, hi);
  }

  /** Some live record starts at `p`, or a hard break inside the window lies there; none of them comes earlier. */
  ghost predicate BeginsAt(ivs: seq<Interval>, w: Window, breaks: seq<int>, p: int) {
    && ((exists k :: 0 <= k < |ivs| && Live(ivs[k], w) && Start(ivs[k], w) == p) || InWindow(breaks, w, p))
    && (forall k :: 0 <= k < |ivs| && Live(ivs[k], w) ==> p <= Start(ivs[k], w))
    && (forall b :: InWindow(breaks, w, b) ==> p <= b)
  }

  ghost predicate EndsAt(ivs: seq<Interval>, w: Window, breaks: seq<int>, p: int) {
    && ((exists k :: 0 <= k < |ivs| && Live(ivs[k], w) && End(ivs[k], w) == p) || InWindow(breaks, w, p))
    && (forall k :: 0 <= k < |ivs| && Live(ivs[k], w) ==> End(ivs[k], w) <= p)
    && (forall b :: InWindow(breaks, w, b) ==> b <= p)
  }

  lemma OpensMeaning(ivs: seq<Interval>, w: Window, breaks: seq<int>, p: int)
    requires Opens(EntriesOf(ivs, w), breaks, w, p)
    ensures BeginsAt(ivs, w, breaks, p)
  {
    forall k | 0 <= k < |ivs| && Live(ivs[k], w) ensures p <= Start(ivs[k], w) {
      assert MakeEntry(WorkingStarts(ivs, w), w, ivs[k]) in EntriesOf(ivs, w);
    }
  }

  lemma ClosesMeaning(ivs: seq<Interval>, w: Window, breaks: seq<int>, p: int)
    requires Closes(EntriesOf(ivs, w), breaks, w, p)
    ensures EndsAt(ivs, w, breaks, p)
  {
    forall k | 0 <= k < |ivs| && Live(ivs[k], w) ensures End(ivs[k], w) <= p {
      assert MakeEntry(WorkingStarts(ivs, w), w, ivs[k]) in EntriesOf(ivs, w);
    }
  }

  lemma EntriesAreProper(ivs: seq<Interval>, w: Window)
    ensures forall e :: e in EntriesOf(ivs, w) ==> e.start < e.end
  {
  }

  /** The timeline runs from the first live start or hard break to the last live end or hard break. */
  lemma SpanMeaning(ivs: seq<Interval>, w: Window, breaks: seq<int>)
    requires EntriesOf(ivs, w) != []
    ensures BeginsAt(ivs, w, breaks, Span(ivs, w, breaks).0)
    ensures EndsAt(ivs, w, breaks, Span(ivs, w, breaks).1)
  {
    SweepTiles(ivs, w, breaks);
    EntriesAreProper(ivs, w);
    FirstPointOpens(EntriesOf(ivs, w), breaks, w);
    LastPointCloses(EntriesOf(ivs, w), breaks, w);
    OpensMeaning(ivs, w, breaks, Span(ivs, w, breaks).0);
    ClosesMeaning(ivs, w, breaks, Span(ivs, w, breaks).1);
  }

  // ----- who owns a run -----

  /** `owner` is the record that owns the pause at `t`, and there is none when the worker is not paused. */
  ghost predicate OwnedBy(ivs: seq<Interval>, w: Window, t: int, owner: Option<int>) {
    && (owner.Some? <==> StateAt(ivs, w, t) == Paused)
    && (owner.Some? ==> exists k: nat :: k < |ivs| && OwnsAt(ivs, w, k, t) && ivs[k].id == owner.value)
  }

  ghost function Ownership(ivs: seq<Interval>, w: Window): (int, Option<int>) -> bool {
    (t, owner) => OwnedBy(ivs, w, t, owner)
  }

  /** Each segment names the owner of its first instant. */
  ghost predicate NamesOwners(segs: seq<Segment>, owns: (int, Option<int>) -> bool) {
    forall i :: 0 <= i < |segs| ==> owns(segs[i].start, segs[i].owner)
  }

  lemma GapOwnerNamed(ivs: seq<Interval>, w: Window, breaks: seq<int>, left: int, right: int)
    requires Adjacent(Points(EntriesOf(ivs, w), breaks, w), left, right)
    ensures OwnedBy(ivs, w, left, Classify(EntriesOf(ivs, w), left, right).owner)
  {
    SpanningIffPresent(ivs, w, breaks, left, right, left, Working);
    SpanningIffPresent(ivs, w, breaks, left, right, left, Paused);
    SpanningIffPresent(ivs, w, breaks, left, right, left, EndedShift);
    if Spanning(EntriesOf(ivs, w), Paused, left, right) != [] {
      GapOwner(ivs, w, breaks, left, right, left);
    }
  }

  lemma {:induction false} MergeNamesOwners(raw: seq<Segment>, breaks: seq<int>, owns: (int, Option<int>) -> bool)
    requires NamesOwners(raw, owns)
    ensures NamesOwners(Merge(raw, breaks), owns)
  {
    if raw != [] {
      var n := |raw| - 1;
      assert NamesOwners(raw[..n], owns);
      MergeNamesOwners(raw[..n], breaks, owns);
      var runs := Merge(raw[..n], breaks);
      assert forall i :: 0 <= i < |runs| ==> owns(runs[i].start, runs[i].owner);
    }
  }

  /** A run of the timeline names the pause that owns its first instant, and none when it is not a pause. */
  lemma RunsNameOwners(ivs: seq<Interval>, w: Window, breaks: seq<int>)
    ensures NamesOwners(Segments(ivs, w, breaks), Ownership(ivs, w))
  {
    var raw := Sweep(ivs, w, breaks);
    forall i | 0 <= i < |raw| ensures Ownership(ivs, w)(raw[i].start, raw[i].owner) {
      var points := Points(EntriesOf(ivs, w), breaks, w);
      ConsecutiveIsAdjacent(points, i);
      GapOwnerNamed(ivs, w, breaks, points[i], points[i + 1]);
    }
    MergeNamesOwners(raw, breaks, Ownership(ivs, w));
  }

  // ----- which records a run lists -----

  /** Record `id` is active at `t` in the state that is effective there. */
  predicate Contributes(ivs: seq<Interval>, w: Window, t: int, id: int) {
    exists k :: 0 <= k < |ivs| && ivs[k].id == id && ivs[k].state == StateAt(ivs, w, t) && ivs[k].state != Idle
        && ActiveAt(ivs, w, ivs[k], t)
  }

  /** A segment lists exactly the ids that contribute at some instant of it. */
  ghost predicate Lists(segs: seq<Segment>, contributes: (int, int) -> bool) {
    && (forall i, t, id :: 0 <= i < |segs| && segs[i].start <= t < segs[i].end && contributes(t, id) ==>
        id in segs[i].ids)
    && (forall i, id :: 0 <= i < |segs| && id in segs[i].ids ==>
        exists t :: segs[i].start <= t < segs[i].end && contributes(t, id))
  }

  function Contribution(ivs: seq<Interval>, w: Window): (int, int) -> bool {
    (t, id) => Contributes(ivs, w, t, id)
  }

  lemma SpanningIds(ivs: seq<Interval>, w: Window, breaks: seq<int>, left: int, right: int, t: int, s: State, id: int)
    requires Adjacent(Points(EntriesOf(ivs, w), breaks, w), left, right) && left <= t < right
    ensures id in Ids(Spanning(EntriesOf(ivs, w), s, left, right))
       <==> exists k :: 0 <= k < |ivs| && ivs[k].id == id && ivs[k].state == s && ActiveAt(ivs, w, ivs[k], t)
  {
    var es := EntriesOf(ivs, w);
    var starts := WorkingStarts(ivs, w);
    var found := Spanning(es, s, left, right);
    if id in Ids(found) {
      var e :| e in found && e.interval.id == id;
      var k :| 0 <= k < |ivs| && Live(ivs[k], w) && MakeEntry(starts, w, ivs[k]) == e;
      SpansIffActive(ivs, w, breaks, left, right, t, k);
    }
    if k :| 0 <= k < |ivs| && ivs[k].id == id && ivs[k].state == s && ActiveAt(ivs, w, ivs[k], t) {
      SpansIffActive(ivs, w, breaks, left, right, t, k);
      assert MakeEntry(starts, w, ivs[k]) in found;
    }
  }

  lemma ClassifyIds(es: seq<Entry>, left: int, right: int)
    ensures var c := Classify(es, left, right);
            c.ids == if c.tag.state == Idle then {} else Ids(Spanning(es, c.tag.state, left, right))
  {
  }

  lemma GapIds(ivs: seq<Interval>, w: Window, breaks: seq<int>, left: int, right: int, t: int, id: int)
    requires Adjacent(Points(EntriesOf(ivs, w), breaks, w), left, right) && left <= t < right
    ensures id in Classify(EntriesOf(ivs, w), left, right).ids <==> Contributes(ivs, w, t, id)
  {
    var es := EntriesOf(ivs, w);
    var c := Classify(es, left, right);
    ClassifyIds(es, left, right);
    assert c.tag.state == StateAt(ivs, w, t) by {
      GapMeaning(ivs, w, breaks, left, right, t);
    }
    SpanningIds(ivs, w, breaks, left, right, t, c.tag.state, id);
  }

  lemma SweepLists(ivs: seq<Interval>, w: Window, breaks: seq<int>)
    ensures Lists(Sweep(ivs, w, breaks), Contribution(ivs, w))
  {
    var points := Points(EntriesOf(ivs, w), breaks, w);
    var raw := Sweep(ivs, w, breaks);
    forall i, t, id | 0 <= i < |raw| && raw[i].start <= t < raw[i].end
      ensures Contribution(ivs, w)(t, id) <==> id in raw[i].ids
    {
      assert raw[i].start == points[i] && raw[i].end == points[i + 1];
      ConsecutiveIsAdjacent(points, i);
      GapIds(ivs, w, breaks, points[i], points[i + 1], t, id);
    }
    forall i, id | 0 <= i < |raw| && id in raw[i].ids
      ensures exists t :: raw[i].start <= t < raw[i].end && Contribution(ivs, w)(t, id)
    {
      ConsecutiveIsAdjacent(points, i);
      assert raw[i].start <= points[i] < raw[i].end;
      assert Contribution(ivs, w)(points[i], id);
    }
  }

  /** A longer run that ends where the next one begins lists what both list. */
  lemma JoinLists(run: Segment, s: Segment, contributes: (int, int) -> bool)
    requires Lists([run], contributes) && Lists([s], contributes) && run.start < run.end == s.start < s.end
    ensures Lists([run.(end := s.end, ids := run.ids + s.ids)], contributes)
  {
    var both := run.(end := s.end, ids := run.ids + s.ids);
    forall t, id | both.start <= t < both.end && contributes(t, id) ensures id in both.ids {
      if s.start <= t {
        assert id in [s][0].ids;
      } else {
        assert id in [run][0].ids;
      }
    }
    forall id | id in both.ids ensures exists t :: both.start <= t < both.end && contributes(t, id) {
      if id in s.ids {
        var t :| [s][0].start <= t < [s][0].end && contributes(t, id);
      } else {
        var t :| [run][0].start <= t < [run][0].end && contributes(t, id);
      }
    }
  }

  lemma LastLists(segs: seq<Segment>, contributes: (int, int) -> bool)
    requires segs != [] && Lists(segs[..|segs| - 1], contributes) && Lists([segs[|segs| - 1]], contributes)
    ensures Lists(segs, contributes)
  {
    var n := |segs| - 1;
    assert forall i :: 0 <= i < n ==> segs[i] == segs[..n][i];
    assert segs[n] == [segs[n]][0];
  }

  lemma ExtendLists(runs: seq<Segment>, s: Segment, breaks: seq<int>, lo: int, contributes: (int, int) -> bool)
    requires Tiles(runs, lo, s.start) && Lists(runs, contributes)
    requires s.start < s.end && Lists([s], contributes)
    ensures Lists(Extend(runs, s, breaks), contributes)
    ensures Tiles(Extend(runs, s, breaks), lo, s.end)
  {
    var r := Extend(runs, s, breaks);
    var n := |r| - 1;
    assert r[..n] == runs[..n];
    assert forall i :: 0 <= i < n ==> r[i] == runs[i];
    if r == runs + [s] {
      assert Lists([r[n]], contributes);
    } else {
      assert Lists([runs[n]], contributes);
      JoinLists(runs[n], s, contributes);
    }
    LastLists(r, contributes);
  }

  lemma {:induction false} MergeLists(raw: seq<Segment>, breaks: seq<int>, lo: int, hi: int,
                                      contributes: (int, int) -> bool)
    requires Tiles(raw, lo, hi) && Lists(raw, contributes)
    ensures Lists(Merge(raw, breaks), contributes)
    ensures Tiles(Merge(raw, breaks), lo, hi)
  {
    if raw != [] {
      var last := raw[|raw| - 1];
      var front := raw[..|raw| - 1];
      assert forall i :: 0 <= i < |front| ==> front[i] == raw[i];
      MergeLists(front, breaks, lo, last.start, contributes);
      ExtendLists(Merge(front, breaks), last, breaks, lo, contributes);
    }
  }

  /** Every run of the timeline lists exactly the records that contribute to it. */
  lemma SegmentsListContributors(ivs: seq<Interval>, w: Window, breaks: seq<int>)
    requires EntriesOf(ivs, w) != []
    ensures Lists(Segments(ivs, w, breaks), Contribution(ivs, w))
  {
    var (lo, hi) := Span(ivs, w, breaks);
    SweepTiles(ivs, w, breaks);
    SweepLists(ivs, w, breaks);
    MergeLists(Sweep(ivs, w, breaks), breaks, lo, hi, Contribution(ivs, w));
  }

  // ----- totals -----

  /** How many instants of [lo, hi) satisfy `p`. */
  ghost function Ticks(lo: int, hi: int, p: int -> bool): nat
    decreases hi - lo
  {
    if lo >= hi then 0 else (if p(lo) then 1 else 0) + Ticks(lo + 1, hi, p)
  }

  lemma {:induction false} TicksSplit(lo: int, mid: int, hi: int, p: int -> bool)
    requires lo <= mid <= hi
    ensures Ticks(lo, hi, p) == Ticks(lo, mid, p) + Ticks(mid, hi, p)
    decreases mid - lo
  {
    if lo < mid {
      TicksSplit(lo + 1, mid, hi, p);
    }
  }

  lemma {:induction false} TicksConstant(lo: int, hi: int, p: int -> bool, b: bool)
    requires lo <= hi
    requires forall t :: lo <= t < hi ==> p(t) == b
    ensures Ticks(lo, hi, p) == if b then hi - lo else 0
    decreases hi - lo
  {
    if lo < hi {
      TicksConstant(lo + 1, hi, p, b);
    }
  }

  /** Total length of the segments in state `s`. */
  function Measure(segs: seq<Segment>, s: State): int {
    if segs == [] then 0
    else
      var last := segs[|segs| - 1];
      Measure(segs[..|segs| - 1], s) + if last.tag.state == s then last.end - last.start else 0
  }

  lemma {:induction false} MeasureCountsInstants(segs: seq<Segment>, lo: int, hi: int, s: State, p: int -> bool)
    requires Tiles(segs, lo, hi)
    requires forall i, t :: 0 <= i < |segs| && segs[i].start <= t < segs[i].end ==> (p(t) <==> segs[i].tag.state == s)
    ensures Measure(segs, s) == Ticks(lo, hi, p)
    ensures lo <= hi
  {
    if segs != [] {
      var last := segs[|segs| - 1];
      var front := segs[..|segs| - 1];
      assert forall i :: 0 <= i < |front| ==> front[i] == segs[i];
      MeasureCountsInstants(front, lo, last.start, s, p);
      TicksSplit(lo, last.start, hi, p);
      TicksConstant(last.start, hi, p, last.tag.state == s);
    }
  }

  lemma {:induction false} MeasuresPartition(segs: seq<Segment>, lo: int, hi: int)
    requires Tiles(segs, lo, hi)
    ensures Measure(segs, Working) + Measure(segs, Paused) + Measure(segs, EndedShift) + Measure(segs, Idle) == hi - lo
  {
    if segs != [] {
      var front := segs[..|segs| - 1];
      MeasuresPartition(front, lo, segs[|segs| - 1].start);
    }
  }

  function In(ivs: seq<Interval>, w: Window, s: State): int -> bool {
    t => StateAt(ivs, w, t) == s
  }

  // ----- pauses by reason -----

  /** The bucket of a pause: its catalog reason, else its transition, else the unattributed one. */
  function ReasonKey(tag: Label): string {
    if tag.reason.Some? && tag.reason.value != "" then tag.reason.value
    else if tag.transition.Some? && tag.transition.value != "" then tag.transition.value
    else UNSPECIFIED
  }

  function PausedUnder(s: Segment, key: string): int {
    if s.tag.state == Paused && ReasonKey(s.tag) == key then s.end - s.start else 0
  }

  /** Total length of the paused segments in the bucket `key`. */
  function ReasonMeasure(segs: seq<Segment>, key: string): int {
    if segs == [] then 0
    else ReasonMeasure(segs[..|segs| - 1], key) + PausedUnder(segs[|segs| - 1], key)
  }

  /** The worker is paused at `t`, and the pause that owns `t` belongs to the bucket `key`. */
  ghost predicate PausedFor(ivs: seq<Interval>, w: Window, key: string, t: int) {
    && StateAt(ivs, w, t) == Paused
    && exists k: nat :: k < |ivs| && OwnsAt(ivs, w, k, t) && ReasonKey(PauseLabel(ivs[k])) == key
  }

  ghost function PausedBy(ivs: seq<Interval>, w: Window, key: string): int -> bool {
    t => PausedFor(ivs, w, key, t)
  }

  /** Record ids are a primary key. */
  ghost predicate DistinctIds(ivs: seq<Interval>) {
    forall i, j :: 0 <= i < j < |ivs| ==> ivs[i].id != ivs[j].id
  }

  lemma OneOwner(ivs: seq<Interval>, w: Window, t: int, a: nat, b: nat)
    requires DistinctIds(ivs) && a < |ivs| && b < |ivs| && OwnsAt(ivs, w, a, t) && OwnsAt(ivs, w, b, t)
    ensures a == b
  {
    assert !Precedes(ivs[a], ivs[b]) && !Precedes(ivs[b], ivs[a]);
  }

  /** At an instant the label is right about, it is paused under exactly the bucket of the instant's owner. */
  lemma LabelBucket(ivs: seq<Interval>, w: Window, t: int, tag: Label, key: string)
    requires DistinctIds(ivs) && LabelledBy(ivs, w, t, tag)
    ensures PausedFor(ivs, w, key, t) <==> tag.state == Paused && ReasonKey(tag) == key
  {
    if tag.state == Paused {
      var k: nat :| k < |ivs| && OwnsAt(ivs, w, k, t) && tag == PauseLabel(ivs[k]);
      if PausedFor(ivs, w, key, t) {
        var j: nat :| j < |ivs| && OwnsAt(ivs, w, j, t) && ReasonKey(PauseLabel(ivs[j])) == key;
        OneOwner(ivs, w, t, k, j);
      }
    }
  }

  lemma {:induction false} ReasonCountsInstants(segs: seq<Segment>, lo: int, hi: int, key: string, p: int -> bool)
    requires Tiles(segs, lo, hi)
    requires forall i, t :: 0 <= i < |segs| && segs[i].start <= t < segs[i].end ==>
               (p(t) <==> segs[i].tag.state == Paused && ReasonKey(segs[i].tag) == key)
    ensures ReasonMeasure(segs, key) == Ticks(lo, hi, p)
    ensures lo <= hi
  {
    if segs != [] {
      var last := segs[|segs| - 1];
      var front := segs[..|segs| - 1];
      assert forall i :: 0 <= i < |front| ==> front[i] == segs[i];
      ReasonCountsInstants(front, lo, last.start, key, p);
      TicksSplit(lo, last.start, hi, p);
      TicksConstant(last.start, hi, p, last.tag.state == Paused && ReasonKey(last.tag) == key);
    }
  }

  lemma ReasonsOf(raw: seq<Segment>, lo: int, hi: int, ivs: seq<Interval>, w: Window, key: string)
    requires DistinctIds(ivs) && Tiles(raw, lo, hi) && Truthful(raw, Meaning(ivs, w))
    ensures ReasonMeasure(raw, key) == Ticks(lo, hi, PausedBy(ivs, w, key))
  {
    forall i, t | 0 <= i < |raw| && raw[i].start <= t < raw[i].end
      ensures PausedBy(ivs, w, key)(t) <==> raw[i].tag.state == Paused && ReasonKey(raw[i].tag) == key
    {
      assert Meaning(ivs, w)(t, raw[i].tag);
      LabelBucket(ivs, w, t, raw[i].tag, key);
    }
    ReasonCountsInstants(raw, lo, hi, key, PausedBy(ivs, w, key));
  }

  lemma NothingSwept(ivs: seq<Interval>, w: Window)
    requires EntriesOf(ivs, w) == []
    ensures Sweep(ivs, w, []) == [] && Span(ivs, w, []) == (w.start, w.start)
  {
  }

  /** Each bucket of the breakdown is the number of paused instants whose owner belongs to it. */
  lemma ReasonsMeaning(ivs: seq<Interval>, w: Window, key: string)
    requires DistinctIds(ivs)
    ensures var (lo, hi) := Span(ivs, w, []);
            ReasonMeasure(Sweep(ivs, w, []), key) == Ticks(lo, hi, PausedBy(ivs, w, key))
  {
    if EntriesOf(ivs, w) == [] {
      NothingSwept(ivs, w);
    } else {
      var (lo, hi) := Span(ivs, w, []);
      SweepTiles(ivs, w, []);
      SweepMeaning(ivs, w, []);
      ReasonsOf(Sweep(ivs, w, []), lo, hi, ivs, w, key);
    }
  }

  /**
   * A pause's bucket, told from its columns: its own reason, else its transition, else the unattributed one;
   * empty texts count as none.
   */
  lemma BucketMeans(iv: Interval)
    ensures ReasonKey(PauseLabel(iv)) ==
              if iv.reason.Some? && |iv.reason.value| > 0 then iv.reason.value
              else if iv.transition.Some? && |iv.transition.value| > 0 then iv.transition.value
              else "unspecified"
  {
  }

  /** `pause_by_reason[key] += length` for a paused segment. */
  lemma BreakdownStep(segs: seq<Segment>, s: Segment, byReason: map<string, int>)
    requires forall key :: At(byReason, key) == ReasonMeasure(segs, key)
    requires Total(byReason) == Measure(segs, Paused)
    ensures var next := if s.tag.state == Paused
                        then byReason[ReasonKey(s.tag) := At(byReason, ReasonKey(s.tag)) + (s.end - s.start)]
                        else byReason;
            && (forall key :: At(next, key) == ReasonMeasure(segs + [s], key))
            && Total(next) == Measure(segs + [s], Paused)
  {
    assert (segs + [s])[..|segs|] == segs;
    TotalBump(byReason, ReasonKey(s.tag), s.end - s.start);
  }

  /** The adding loop of the roster totals. */
  method AddUp(raw: seq<Segment>)
    returns (working: int, paused: int, ended: int, idle: int, byReason: map<string, int>)
    ensures working == Measure(raw, Working) && paused == Measure(raw, Paused)
    ensures ended == Measure(raw, EndedShift) && idle == Measure(raw, Idle)
    ensures Total(byReason) == paused && forall key :: At(byReason, key) == ReasonMeasure(raw, key)
  {
    working, paused, ended, idle, byReason := 0, 0, 0, 0, map[];
    for i := 0 to |raw|
      invariant working == Measure(raw[..i], Working) && paused == Measure(raw[..i], Paused)
      invariant ended == Measure(raw[..i], EndedShift) && idle == Measure(raw[..i], Idle)
      invariant Total(byReason) == Measure(raw[..i], Paused)
      invariant forall key :: At(byReason, key) == ReasonMeasure(raw[..i], key)
    {
      BreakdownStep(raw[..i], raw[i], byReason);
      assert raw[..i] + [raw[i]] == raw[..i + 1] && raw[..i + 1][..i] == raw[..i];
      var length := raw[i].end - raw[i].start;
      match raw[i].tag.state {
        case Working =>
          working := working + length;
        case Paused =>
          paused := paused + length;
          var key := ReasonKey(raw[i].tag);
          byReason := byReason[key := At(byReason, key) + length];
        case EndedShift =>
          ended := ended + length;
        case Idle =>
          idle := idle + length;
      }
    }
    assert raw[..|raw|] == raw;
  }

  lemma TotalsMeaning(ivs: seq<Interval>, w: Window)
    ensures var (lo, hi) := Span(ivs, w, []);
            var raw := Sweep(ivs, w, []);
            && (forall s :: Measure(raw, s) == Ticks(lo, hi, In(ivs, w, s)))
            && Measure(raw, Working) + Measure(raw, Paused) + Measure(raw, EndedShift) + Measure(raw, Idle) == hi - lo
  {
    var (lo, hi) := Span(ivs, w, []);
    var raw := Sweep(ivs, w, []);
    if raw == [] {
      assert EntriesOf(ivs, w) == [] by {
        if EntriesOf(ivs, w) != [] {
          SweepTiles(ivs, w, []);
        }
      }
    } else {
      SweepTiles(ivs, w, []);
      SweepMeaning(ivs, w, []);
      MeasuresPartition(raw, lo, hi);
      forall s ensures Measure(raw, s) == Ticks(lo, hi, In(ivs, w, s)) {
        forall i, t | 0 <= i < |raw| && raw[i].start <= t < raw[i].end
          ensures In(ivs, w, s)(t) <==> raw[i].tag.state == s
        {
          assert Meaning(ivs, w)(t, raw[i].tag);
        }
        MeasureCountsInstants(raw, lo, hi, s, In(ivs, w, s));
      }
    }
  }

  /**
   * The roster totals: wall-clock time per bucket, before rounding to seconds. The breakdown of the paused
   * time by reason adds up to it, and gives each reason the instants that pauses of that reason own.
   */
  method LinearTimeline(ivs: seq<Interval>, w: Window)
    returns (working: int, paused: int, ended: int, idle: int, byReason: map<string, int>)
    ensures var (lo, hi) := Span(ivs, w, []);
            && working == Ticks(lo, hi, In(ivs, w, Working))
            && paused == Ticks(lo, hi, In(ivs, w, Paused))
            && ended == Ticks(lo, hi, In(ivs, w, EndedShift))
            && idle == Ticks(lo, hi, In(ivs, w, Idle))
            && working + paused + ended + idle == hi - lo
            && Total(byReason) == paused
            && (DistinctIds(ivs) ==> forall key :: At(byReason, key) == Ticks(lo, hi, PausedBy(ivs, w, key)))
  {
    working, paused, ended, idle, byReason := AddUp(Sweep(ivs, w, []));
    TotalsMeaning(ivs, w);
    if DistinctIds(ivs) {
      forall key ensures var (lo, hi) := Span(ivs, w, []); At(byReason, key) == Ticks(lo, hi, PausedBy(ivs, w, key)) {
        ReasonsMeaning(ivs, w, key);
      }
    }
  }

  /** The loop that classifies gap by gap. */
  method ClassifyGaps(es: seq<Entry>, points: seq<int>) returns (raw: seq<Segment>)
    requires points != []
    ensures raw == Gaps(es, points)
  {
    raw := [];
    for k := 1 to |points|
      invariant raw == Gaps(es, points[..k])
    {
      raw := raw + [Classify(es, points[k - 1], points[k])];
      assert points[..k + 1][..k] == points[..k];
    }
    assert points[..|points|] == points;
  }

  /** The loop that merges run by run. */
  method MergeRuns(raw: seq<Segment>, breaks: seq<int>) returns (runs: seq<Segment>)
    ensures runs == Merge(raw, breaks)
  {
    runs := [];
    for i := 0 to |raw|
      invariant runs == Merge(raw[..i], breaks)
    {
      assert raw[..i + 1][..i] == raw[..i];
      runs := Extend(runs, raw[i], breaks);
    }
    assert raw[..|raw|] == raw;
  }

  method LinearSegments(ivs: seq<Interval>, w: Window, breaks: seq<int>) returns (runs: seq<Segment>)
    ensures runs == Segments(ivs, w, breaks)
  {
    var es := EntriesOf(ivs, w);
    if es == [] {
      return [];
    }
    SweepTiles(ivs, w, breaks);
    var raw := ClassifyGaps(es, Points(es, breaks, w));
    runs := MergeRuns(raw, breaks);
  }

  // ----- the cut-off moment does not matter once it lies beyond the window -----

  ghost predicate SameClamp(w: Window, v: Window) {
    w.start == v.start && w.end == v.end && w.now >= w.end && v.now >= v.end
  }

  lemma {:induction false} WorkingStartsSame(ivs: seq<Interval>, w: Window, v: Window)
    requires SameClamp(w, v)
    ensures WorkingStarts(ivs, w) == WorkingStarts(ivs, v)
  {
    if ivs != [] {
      WorkingStartsSame(ivs[..|ivs| - 1], w, v);
    }
  }

  lemma {:induction false} EntriesSame(ivs: seq<Interval>, w: Window, v: Window, starts: seq<int>)
    requires SameClamp(w, v)
    ensures Entries(ivs, w, starts) == Entries(ivs, v, starts)
  {
    if ivs != [] {
      EntriesSame(ivs[..|ivs| - 1], w, v, starts);
    }
  }

  lemma {:induction false} BreakPointsSame(breaks: seq<int>, w: Window, v: Window)
    requires SameClamp(w, v)
    ensures BreakPoints(breaks, w) == BreakPoints(breaks, v)
  {
    if breaks != [] {
      BreakPointsSame(breaks[1..], w, v);
    }
  }

  lemma {:induction false} PointsSame(es: seq<Entry>, breaks: seq<int>, w: Window, v: Window)
    requires SameClamp(w, v)
    ensures Points(es, breaks, w) == Points(es, breaks, v)
  {
    if es == [] {
      BreakPointsSame(breaks, w, v);
    } else {
      PointsSame(es[1..], breaks, w, v);
    }
  }

  /** A finished window gives the same timeline whenever it is looked at. */
  lemma HistoryIsStable(ivs: seq<Interval>, w: Window, v: Window, breaks: seq<int>)
    requires SameClamp(w, v)
    ensures Segments(ivs, w, breaks) == Segments(ivs, v, breaks)
  {
    WorkingStartsSame(ivs, w, v);
    EntriesSame(ivs, w, v, WorkingStarts(ivs, w));
    PointsSame(EntriesOf(ivs, w), breaks, w, v);
  }

  // ----- the order in which the records are read does not matter -----

  /** The same records, each once, in whatever order. */
  ghost predicate Reordered(a: seq<Interval>, b: seq<Interval>) {
    DistinctIds(a) && DistinctIds(b) && forall iv :: iv in a <==> iv in b
  }

  lemma EmptyTogether(a: seq<int>, b: seq<int>)
    requires forall p :: p in a <==> p in b
    ensures a == [] <==> b == []
  {
    if a != [] {
      var p := a[0];
      assert p in a && p in b;
    }
    if b != [] {
      var p := b[0];
      assert p in b && p in a;
    }
  }

  lemma TailMembers(s: seq<int>, p: int)
    requires s != [] && Increasing(s)
    ensures p in s[1..] <==> p in s && p != s[0]
  {
    assert s == [s[0]] + s[1..];
  }

  lemma {:induction false} SameMembersSameOrder(a: seq<int>, b: seq<int>)
    requires Increasing(a) && Increasing(b) && forall p :: p in a <==> p in b
    ensures a == b
  {
    EmptyTogether(a, b);
    if a != [] {
      var p, q := a[0], b[0];
      assert p in a && p in b && q in b && q in a && p == q;
      forall p ensures p in a[1..] <==> p in b[1..] {
        TailMembers(a, p);
        TailMembers(b, p);
      }
      SameMembersSameOrder(a[1..], b[1..]);
      assert a == [a[0]] + a[1..] && b == [b[0]] + b[1..];
    }
  }

  lemma StartsReordered(a: seq<Interval>, b: seq<Interval>, w: Window)
    requires forall iv :: iv in a <==> iv in b
    ensures forall p :: p in WorkingStarts(a, w) <==> p in WorkingStarts(b, w)
  {
    forall p | p in WorkingStarts(a, w) ensures p in WorkingStarts(b, w) {
      var k :| 0 <= k < |a| && a[k].state == Working && Live(a[k], w) && Start(a[k], w) == p;
      assert a[k] in b;
    }
    forall p | p in WorkingStarts(b, w) ensures p in WorkingStarts(a, w) {
      var k :| 0 <= k < |b| && b[k].state == Working && Live(b[k], w) && Start(b[k], w) == p;
      assert b[k] in a;
    }
  }

  lemma FirstAfterReordered(a: seq<int>, b: seq<int>, moment: int)
    requires forall p :: p in a <==> p in b
    ensures FirstAfter(a, moment) == FirstAfter(b, moment)
  {
  }

  lemma EntryListed(ivs: seq<Interval>, w: Window, starts: seq<int>, iv: Interval)
    requires iv in ivs && Live(iv, w)
    ensures MakeEntry(starts, w, iv) in Entries(ivs, w, starts)
  {
    var k :| 0 <= k < |ivs| && ivs[k] == iv;
  }

  lemma EntrySource(ivs: seq<Interval>, w: Window, starts: seq<int>, e: Entry)
    requires e in Entries(ivs, w, starts)
    ensures e.interval in ivs && Live(e.interval, w) && MakeEntry(starts, w, e.interval) == e
  {
  }

  /** Any order of the records gives the same entries. */
  lemma EntriesReordered(a: seq<Interval>, b: seq<Interval>, w: Window, e: Entry)
    requires (forall iv :: iv in a <==> iv in b) && e in EntriesOf(a, w)
    ensures e in EntriesOf(b, w)
  {
    EntrySource(a, w, WorkingStarts(a, w), e);
    StartsReordered(a, b, w);
    FirstAfterReordered(WorkingStarts(a, w), WorkingStarts(b, w), Start(e.interval, w));
    EntryListed(b, w, WorkingStarts(b, w), e.interval);
  }

  ghost predicate SameEntries(es: seq<Entry>, fs: seq<Entry>) {
    forall e :: e in es <==> e in fs
  }

  lemma PointKept(es: seq<Entry>, fs: seq<Entry>, breaks: seq<int>, w: Window, p: int)
    requires SameEntries(es, fs) && p in Points(es, breaks, w)
    ensures p in Points(fs, breaks, w)
  {
    PointOrigin(es, breaks, w, p);
    if p in breaks && w.start <= p <= w.end {
      BreaksArePoints(fs, breaks, w, p);
    } else {
      var e :| e in es && (p == e.start || p == e.end);
      EdgesArePoints(fs, breaks, w, e);
    }
  }

  lemma PointsReordered(es: seq<Entry>, fs: seq<Entry>, breaks: seq<int>, w: Window)
    requires SameEntries(es, fs)
    ensures Points(es, breaks, w) == Points(fs, breaks, w)
  {
    forall p ensures p in Points(es, breaks, w) <==> p in Points(fs, breaks, w) {
      if p in Points(es, breaks, w) {
        PointKept(es, fs, breaks, w, p);
      }
      if p in Points(fs, breaks, w) {
        PointKept(fs, es, breaks, w, p);
      }
    }
    SameMembersSameOrder(Points(es, breaks, w), Points(fs, breaks, w));
  }

  /** No two entries come from different records with one id. */
  ghost predicate KeyedEntries(es: seq<Entry>) {
    forall e, f :: e in es && f in es && e.interval.id == f.interval.id ==> e == f
  }

  lemma SpanningReordered(es: seq<Entry>, fs: seq<Entry>, s: State, left: int, right: int)
    requires SameEntries(es, fs)
    ensures SameEntries(Spanning(es, s, left, right), Spanning(fs, s, left, right))
    ensures Spanning(es, s, left, right) == [] <==> Spanning(fs, s, left, right) == []
    ensures Ids(Spanning(es, s, left, right)) == Ids(Spanning(fs, s, left, right))
  {
    var x, y := Spanning(es, s, left, right), Spanning(fs, s, left, right);
    assert SameEntries(x, y);
    assert x != [] ==> x[0] in y;
    assert y != [] ==> y[0] in x;
  }

  lemma OwnerReordered(es: seq<Entry>, fs: seq<Entry>)
    requires SameEntries(es, fs) && KeyedEntries(es) && es != [] && fs != []
    ensures Owner(es) == Owner(fs)
  {
    var o, q := Owner(es), Owner(fs);
    assert o in fs && q in es;
    assert !Precedes(q.interval, o.interval) && !Precedes(o.interval, q.interval);
  }

  lemma ClassifyReordered(es: seq<Entry>, fs: seq<Entry>, left: int, right: int)
    requires SameEntries(es, fs) && KeyedEntries(es)
    ensures Classify(es, left, right) == Classify(fs, left, right)
  {
    SpanningReordered(es, fs, Working, left, right);
    SpanningReordered(es, fs, Paused, left, right);
    SpanningReordered(es, fs, EndedShift, left, right);
    var x, y := Spanning(es, Paused, left, right), Spanning(fs, Paused, left, right);
    if x != [] {
      assert KeyedEntries(x);
      OwnerReordered(x, y);
    }
  }

  lemma GapsReordered(es: seq<Entry>, fs: seq<Entry>, points: seq<int>)
    requires SameEntries(es, fs) && KeyedEntries(es)
    ensures Gaps(es, points) == Gaps(fs, points)
  {
    forall i | 0 <= i < |points| - 1 ensures Gaps(es, points)[i] == Gaps(fs, points)[i] {
      ClassifyReordered(es, fs, points[i], points[i + 1]);
    }
  }

  lemma EntriesAreKeyed(ivs: seq<Interval>, w: Window)
    requires DistinctIds(ivs)
    ensures KeyedEntries(EntriesOf(ivs, w))
  {
    forall e, f | e in EntriesOf(ivs, w) && f in EntriesOf(ivs, w) && e.interval.id == f.interval.id ensures e == f {
      EntrySource(ivs, w, WorkingStarts(ivs, w), e);
      EntrySource(ivs, w, WorkingStarts(ivs, w), f);
      var i :| 0 <= i < |ivs| && ivs[i] == e.interval;
      var j :| 0 <= j < |ivs| && ivs[j] == f.interval;
      assert i == j;
    }
  }

  lemma SweepReordered(es: seq<Entry>, fs: seq<Entry>, a: seq<Interval>, b: seq<Interval>, w: Window, breaks: seq<int>)
    requires es == EntriesOf(a, w) && fs == EntriesOf(b, w) && SameEntries(es, fs) && DistinctIds(a)
    ensures Sweep(a, w, breaks) == Sweep(b, w, breaks)
  {
    EntriesAreKeyed(a, w);
    PointsReordered(es, fs, breaks, w);
    GapsReordered(es, fs, Points(es, breaks, w));
    assert es != [] ==> es[0] in fs;
    assert fs != [] ==> fs[0] in es;
  }

  /** The timeline does not depend on the order in which the records are read. */
  lemma SegmentsReordered(a: seq<Interval>, b: seq<Interval>, w: Window, breaks: seq<int>)
    requires Reordered(a, b)
    ensures Segments(a, w, breaks) == Segments(b, w, breaks)
  {
    var es, fs := EntriesOf(a, w), EntriesOf(b, w);
    forall e ensures e in es <==> e in fs {
      if e in es {
        EntriesReordered(a, b, w, e);
      }
      if e in fs {
        EntriesReordered(b, a, w, e);
      }
    }
    SweepReordered(es, fs, a, b, w, breaks);
  }

  // ----- the same, told from the records' own columns -----

  /** The record spans the instant. */
  predicate Spans(iv: Interval, t: int) {
    iv.enteredAt <= t && (iv.exitedAt.Some? ==> t < iv.exitedAt.value)
  }

  /** Some work that lasts at all began after `from` and no later than `t`. */
  predicate WorkBegan(ivs: seq<Interval>, from: int, t: int) {
    exists k :: && 0 <= k < |ivs| && ivs[k].state == Working && from < ivs[k].enteredAt <= t
                && (ivs[k].exitedAt.Some? ==> ivs[k].enteredAt < ivs[k].exitedAt.value)
  }

  /** A pause that spans the instant, with no work begun since it or, if later, the window began. */
  predicate FreshPause(ivs: seq<Interval>, w: Window, iv: Interval, t: int) {
    && iv.state == Paused && Spans(iv, t)
    && !WorkBegan(ivs, if iv.enteredAt > w.start then iv.enteredAt else w.start, t)
  }

  lemma BeganMeans(ivs: seq<Interval>, w: Window, from: int, t: int)
    requires w.start <= t < w.end && t < w.now && w.start <= from
    ensures ResumedIn(ivs, w, from, t) <==> WorkBegan(ivs, from, t)
  {
    if k :| 0 <= k < |ivs| && ivs[k].state == Working && Live(ivs[k], w) && from < Start(ivs[k], w) <= t {
      assert ivs[k].enteredAt == Start(ivs[k], w);
    }
    if k :| && 0 <= k < |ivs| && ivs[k].state == Working && from < ivs[k].enteredAt <= t
            && (ivs[k].exitedAt.Some? ==> ivs[k].enteredAt < ivs[k].exitedAt.value) {
      assert Live(ivs[k], w) && from < Start(ivs[k], w) <= t;
    }
  }

  lemma ActiveMeans(ivs: seq<Interval>, w: Window, iv: Interval, t: int)
    requires w.start <= t < w.end && t < w.now
    ensures ActiveAt(ivs, w, iv, t) <==> if iv.state == Paused then FreshPause(ivs, w, iv, t) else Spans(iv, t)
  {
    BeganMeans(ivs, w, Start(iv, w), t);
  }

  /** Some record in this state spans the instant; of pauses, a fresh one. */
  predicate Shows(ivs: seq<Interval>, w: Window, s: State, t: int) {
    exists k :: && 0 <= k < |ivs| && ivs[k].state == s
                && if s == Paused then FreshPause(ivs, w, ivs[k], t) else Spans(ivs[k], t)
  }

  lemma PresentMeans(ivs: seq<Interval>, w: Window, s: State, t: int)
    requires w.start <= t < w.end && t < w.now
    ensures Present(ivs, w, s, t) <==> Shows(ivs, w, s, t)
  {
    forall k | 0 <= k < |ivs| && ivs[k].state == s
      ensures ActiveAt(ivs, w, ivs[k], t) <==> if s == Paused then FreshPause(ivs, w, ivs[k], t) else Spans(ivs[k], t)
    {
      ActiveMeans(ivs, w, ivs[k], t);
    }
  }

  /**
   * The effective state, told from the columns: work wins over a fresh pause, that over off-shift time, and
   * else the worker is idle.
   */
  lemma StateMeans(ivs: seq<Interval>, w: Window, t: int)
    requires w.start <= t < w.end && t < w.now
    ensures StateAt(ivs, w, t).Working? <==> Shows(ivs, w, Working, t)
    ensures StateAt(ivs, w, t).Paused? <==> !Shows(ivs, w, Working, t) && Shows(ivs, w, Paused, t)
    ensures StateAt(ivs, w, t).EndedShift? <==>
              !Shows(ivs, w, Working, t) && !Shows(ivs, w, Paused, t) && Shows(ivs, w, EndedShift, t)
  {
    PresentMeans(ivs, w, Working, t);
    PresentMeans(ivs, w, Paused, t);
    PresentMeans(ivs, w, EndedShift, t);
  }

  /** Of the fresh pauses the owner has the highest priority, then the earliest start, then the smallest id. */
  lemma OwnerMeans(ivs: seq<Interval>, w: Window, k: nat, t: int)
    requires w.start <= t < w.end && t < w.now && k < |ivs| && OwnsAt(ivs, w, k, t)
    ensures FreshPause(ivs, w, ivs[k], t)
    ensures forall i :: 0 <= i < |ivs| && FreshPause(ivs, w, ivs[i], t) ==>
              || ivs[k].priority > ivs[i].priority
              || (ivs[k].priority == ivs[i].priority && ivs[k].enteredAt < ivs[i].enteredAt)
              || (ivs[k].priority == ivs[i].priority && ivs[k].enteredAt == ivs[i].enteredAt && ivs[k].id <= ivs[i].id)
  {
    ActiveMeans(ivs, w, ivs[k], t);
    forall i | 0 <= i < |ivs| && FreshPause(ivs, w, ivs[i], t) ensures !Precedes(ivs[i], ivs[k]) {
      ActiveMeans(ivs, w, ivs[i], t);
    }
  }

  /**
   * What a run says of a paused instant: the owner's own reason and transition, or `unspecified` when it has
   * neither.
   */
  lemma PauseLabelMeans(iv: Interval)
    ensures PauseLabel(iv).state.Paused? && PauseLabel(iv).transition == iv.transition
              && PauseLabel(iv).priority == iv.priority
    ensures PauseLabel(iv).reason == if iv.reason.None? && iv.transition.None? then Some("unspecified") else iv.reason
  {
  }

  /** Runs that are not pauses carry no reason, no transition and no owner. */
  lemma OtherRunsAreBare(ivs: seq<Interval>, w: Window, breaks: seq<int>, i: nat)
    requires EntriesOf(ivs, w) != [] && i < |Segments(ivs, w, breaks)|
               && Segments(ivs, w, breaks)[i].tag.state != Paused
    ensures var run := Segments(ivs, w, breaks)[i];
            run.tag.reason.None? && run.tag.transition.None? && run.tag.priority == 0 && run.owner.None?
  {
    var segs := Segments(ivs, w, breaks);
    var (lo, hi) := Span(ivs, w, breaks);
    SegmentsMeaning(ivs, w, breaks);
    TilesAt(segs, lo, hi);
    assert Meaning(ivs, w)(segs[i].start, segs[i].tag);
    RunsNameOwners(ivs, w, breaks);
    assert Ownership(ivs, w)(segs[i].start, segs[i].owner);
  }
}
