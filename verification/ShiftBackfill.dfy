/**
 * Rebuilding recorded shifts from step history (backfill_worker_shift_state_records.py): one worker-day
 * at a time, delete and rewrite, over every worker-day the source records touch.
 */
module ShiftBackfill {
  import opened Relational
  import opened Timeline

  datatype ShiftState = StartedShift | AtWork | InPause | IdleTime | ShiftOver

  datatype Worker = Worker(workspace: Id, user: Id)

  datatype ShiftRow = ShiftRow(
    worker: Worker,
    state: ShiftState,
    enteredAt: int,
    exitedAt: Option<int>,
    reason: Option<string>,
    transition: Option<string>,
    manual: bool)

  const DAY := 86_400_000_000

  function Midnight(day: int): int {
    day * DAY
  }

  function DayOf(t: int): int {
    t / DAY
  }

  // ----- one day: segments to records -----

  function ToShift(s: State): ShiftState {
    match s
    case Working => AtWork
    case Paused => InPause
    case EndedShift => ShiftOver
    case Idle => IdleTime
  }

  function Marker(worker: Worker, s: ShiftState, t: int): ShiftRow {
    ShiftRow(worker, s, t, Some(t), None, None, false)
  }

  function RowOf(worker: Worker, seg: Segment): ShiftRow {
    var paused := seg.tag.state == Paused;
    ShiftRow(worker, ToShift(seg.tag.state), seg.start, Some(seg.end),
             if paused then seg.tag.reason else None,
             if paused then seg.tag.transition else None, false)
  }

  /** How many segments come before the first off-shift one. */
  function OnShift(segs: seq<Segment>): (n: nat)
    ensures n <= |segs|
    ensures forall i :: 0 <= i < n ==> segs[i].tag.state != EndedShift
    ensures n < |segs| ==> segs[n].tag.state == EndedShift
  {
    if segs == [] || segs[0].tag.state == EndedShift then 0 else 1 + OnShift(segs[1..])
  }

  function EndOfShift(segs: seq<Segment>): int
    requires segs != []
  {
    var n := OnShift(segs);
    if n < |segs| then segs[n].start else segs[|segs| - 1].end
  }

  function Rows(worker: Worker, segs: seq<Segment>): (r: seq<ShiftRow>)
    ensures |r| == |segs|
    ensures forall i :: 0 <= i < |r| ==> r[i] == RowOf(worker, segs[i])
  {
    seq(|segs|, i requires 0 <= i < |segs| => RowOf(worker, segs[i]))
  }

  function Framed(worker: Worker, lo: int, rows: seq<ShiftRow>, e: int): seq<ShiftRow> {
    [Marker(worker, StartedShift, lo)] + rows + [Marker(worker, ShiftOver, e)]
  }

  /** A rebuilt shift: a start marker, one row per segment up to the end of the shift, an end marker. */
  function Rebuilt(worker: Worker, segs: seq<Segment>): seq<ShiftRow> {
    if segs == [] then []
    else Framed(worker, segs[0].start, Rows(worker, segs[..OnShift(segs)]), EndOfShift(segs))
  }

  /** The loop that appends row by row and breaks off at the end of the shift. */
  method RecordsFromSegments(worker: Worker, segs: seq<Segment>) returns (records: seq<ShiftRow>)
    ensures records == Rebuilt(worker, segs)
  {
    if segs == [] {
      return [];
    }
    records := [Marker(worker, StartedShift, segs[0].start)];
    var endedAt := segs[|segs| - 1].end;
    var i := 0;
    while i < |segs|
      invariant 0 <= i <= OnShift(segs)
      invariant records == [Marker(worker, StartedShift, segs[0].start)] + Rows(worker, segs[..i])
      invariant endedAt == segs[|segs| - 1].end
    {
      if segs[i].tag.state == EndedShift {
        endedAt := segs[i].start;
        break;
      }
      assert Rows(worker, segs[..i + 1]) == Rows(worker, segs[..i]) + [RowOf(worker, segs[i])];
      records := records + [RowOf(worker, segs[i])];
      i := i + 1;
    }
    records := records + [Marker(worker, ShiftOver, endedAt)];
  }

  // ----- what a rebuilt shift means -----

  /** `e` is the first off-shift instant of [lo, hi), or `hi`. */
  ghost predicate IsEndOfShift(at: int -> State, lo: int, hi: int, e: int) {
    && lo <= e <= hi
    && (forall t :: lo <= t < e ==> at(t) != EndedShift)
    && (e < hi ==> at(e) == EndedShift)
  }

  /** Each segment carries the state `at` gives to each of its instants. */
  ghost predicate Follows(segs: seq<Segment>, at: int -> State) {
    forall i, t :: 0 <= i < |segs| && segs[i].start <= t < segs[i].end ==> at(t) == segs[i].tag.state
  }

  function StateOf(ivs: seq<Interval>, w: Window): int -> State {
    t => StateAt(ivs, w, t)
  }

  lemma {:induction false} TilesPrefix(segs: seq<Segment>, lo: int, hi: int, n: nat)
    requires Tiles(segs, lo, hi) && n <= |segs|
    ensures Tiles(segs[..n], lo, if n < |segs| then segs[n].start else hi)
  {
    if n < |segs| {
      var m := |segs| - 1;
      TilesPrefix(segs[..m], lo, segs[m].start, n);
      assert segs[..m][..n] == segs[..n];
    } else {
      assert segs[..n] == segs;
    }
  }

  lemma {:induction false} TilesOrder(segs: seq<Segment>, lo: int, hi: int, i: nat, j: nat)
    requires Tiles(segs, lo, hi) && i <= j < |segs|
    ensures segs[i].start <= segs[j].start
  {
    TilesAt(segs, lo, hi);
    if i < j {
      TilesOrder(segs, lo, hi, i, j - 1);
      assert segs[j - 1].end == segs[j].start;
    }
  }

  lemma {:induction false} Locate(segs: seq<Segment>, lo: int, hi: int, t: int) returns (i: nat)
    requires Tiles(segs, lo, hi) && lo <= t < hi
    ensures i < |segs| && segs[i].start <= t < segs[i].end
  {
    var n := |segs| - 1;
    if segs[n].start <= t {
      i := n;
    } else {
      i := Locate(segs[..n], lo, segs[n].start, t);
    }
  }

  lemma ShiftEnd(segs: seq<Segment>, lo: int, hi: int, at: int -> State)
    requires segs != [] && Tiles(segs, lo, hi) && Follows(segs, at)
    ensures IsEndOfShift(at, lo, hi, EndOfShift(segs))
  {
    TilesAt(segs, lo, hi);
    var n := OnShift(segs);
    var e := EndOfShift(segs);
    forall t | lo <= t < e ensures at(t) != EndedShift {
      var i := Locate(segs, lo, hi, t);
      if n < |segs| && n <= i {
        TilesOrder(segs, lo, hi, n, i);
      }
    }
  }

  /** Total time the rows spend in shift state `s`; markers have no length. */
  function TimeIn(rows: seq<ShiftRow>, s: ShiftState): int {
    if rows == [] then 0
    else
      var last := rows[|rows| - 1];
      TimeIn(rows[..|rows| - 1], s)
      + if last.state == s && last.exitedAt.Some? then last.exitedAt.value - last.enteredAt else 0
  }

  lemma {:induction false} TimeInRows(worker: Worker, segs: seq<Segment>, s: State)
    ensures TimeIn(Rows(worker, segs), ToShift(s)) == Measure(segs, s)
  {
    if segs != [] {
      var n := |segs| - 1;
      assert Rows(worker, segs)[..n] == Rows(worker, segs[..n]);
      TimeInRows(worker, segs[..n], s);
    }
  }

  lemma {:induction false} TimeInConcat(a: seq<ShiftRow>, b: seq<ShiftRow>, s: ShiftState)
    ensures TimeIn(a + b, s) == TimeIn(a, s) + TimeIn(b, s)
  {
    if b == [] {
      assert a + b == a;
    } else {
      assert (a + b)[..|a + b| - 1] == a + b[..|b| - 1];
      TimeInConcat(a, b[..|b| - 1], s);
    }
  }

  lemma MarkersTakeNoTime(worker: Worker, lo: int, rows: seq<ShiftRow>, e: int, s: ShiftState)
    ensures TimeIn(Framed(worker, lo, rows, e), s) == TimeIn(rows, s)
  {
    var first, last := [Marker(worker, StartedShift, lo)], [Marker(worker, ShiftOver, e)];
    TimeInConcat(first + rows, last, s);
    TimeInConcat(first, rows, s);
    assert first[..0] == [] && last[..0] == [];
  }

  lemma OnShiftTime(worker: Worker, on: seq<Segment>, lo: int, e: int, at: int -> State, s: State)
    requires Tiles(on, lo, e) && Follows(on, at)
    ensures TimeIn(Rows(worker, on), ToShift(s)) == Ticks(lo, e, t => at(t) == s)
  {
    MeasureCountsInstants(on, lo, e, s, t => at(t) == s);
    TimeInRows(worker, on, s);
  }

  /** The segments before the end of the shift, as a tiling of their own. */
  lemma OnShiftPart(worker: Worker, segs: seq<Segment>, lo: int, hi: int, at: int -> State)
    requires segs != [] && Tiles(segs, lo, hi) && Follows(segs, at)
    ensures var on := segs[..OnShift(segs)];
            && Tiles(on, lo, EndOfShift(segs))
            && Follows(on, at)
            && Rebuilt(worker, segs) == Framed(worker, lo, Rows(worker, on), EndOfShift(segs))
  {
    TilesPrefix(segs, lo, hi, OnShift(segs));
    TilesAt(segs, lo, hi);
  }

  /** Each state's time is the number of its instants before the end of the shift. */
  lemma ShiftTime(worker: Worker, segs: seq<Segment>, lo: int, hi: int, at: int -> State, s: State)
    requires segs != [] && Tiles(segs, lo, hi) && Follows(segs, at)
    ensures TimeIn(Rebuilt(worker, segs), ToShift(s)) == Ticks(lo, EndOfShift(segs), t => at(t) == s)
  {
    OnShiftPart(worker, segs, lo, hi, at);
    var on := segs[..OnShift(segs)];
    OnShiftTime(worker, on, lo, EndOfShift(segs), at, s);
    MarkersTakeNoTime(worker, lo, Rows(worker, on), EndOfShift(segs), ToShift(s));
  }

  /** The row covering an instant. */
  ghost predicate Covers(r: ShiftRow, t: int) {
    r.exitedAt.Some? && r.enteredAt <= t < r.exitedAt.value
  }

  /** Row `i` ends where row `i + 1` begins. */
  ghost predicate Meet(rows: seq<ShiftRow>, i: int) {
    0 <= i < |rows| - 1 && rows[i].exitedAt == Some(rows[i + 1].enteredAt)
  }

  lemma FramedRowsMeet(worker: Worker, on: seq<Segment>, lo: int, e: int)
    requires Tiles(on, lo, e)
    ensures var rows := Framed(worker, lo, Rows(worker, on), e); forall i :: 0 <= i < |rows| - 1 ==> Meet(rows, i)
  {
    var rows := Framed(worker, lo, Rows(worker, on), e);
    TilesAt(on, lo, e);
    forall i | 0 <= i < |rows| - 1 ensures Meet(rows, i) {
      if 0 < i {
        assert rows[i] == RowOf(worker, on[i - 1]);
        if i < |on| {
          assert rows[i + 1] == RowOf(worker, on[i]);
          assert on[i - 1].end == on[i].start;
        }
      } else if on != [] {
        assert rows[1] == RowOf(worker, on[0]);
      }
    }
  }

  /** Some row between the markers covers `t`, in shift state `s`. */
  ghost predicate CoveredAs(rows: seq<ShiftRow>, t: int, s: ShiftState) {
    exists i :: 0 < i < |rows| - 1 && Covers(rows[i], t) && rows[i].state == s
  }

  lemma FramedRowsCover(worker: Worker, on: seq<Segment>, lo: int, e: int, at: int -> State, t: int)
    requires Tiles(on, lo, e) && Follows(on, at) && lo <= t < e
    ensures CoveredAs(Framed(worker, lo, Rows(worker, on), e), t, ToShift(at(t)))
  {
    var rows := Framed(worker, lo, Rows(worker, on), e);
    var i := Locate(on, lo, e, t);
    assert rows[i + 1] == RowOf(worker, on[i]);
  }

  /**
   * The row says what the label says: its state, and the reason and transition if it is a pause. Nobody
   * entered it by hand.
   */
  predicate Tells(r: ShiftRow, tag: Label) {
    && r.state == ToShift(tag.state)
    && r.reason == (if tag.state == Paused then tag.reason else None)
    && r.transition == (if tag.state == Paused then tag.transition else None)
    && !r.manual
  }

  /** Of every instant it covers, each row between the markers tells something `says` allows. */
  ghost predicate TellsTruth(rows: seq<ShiftRow>, says: (int, Label) -> bool) {
    forall i, t :: 0 < i < |rows| - 1 && Covers(rows[i], t) ==> exists tag :: says(t, tag) && Tells(rows[i], tag)
  }

  lemma RowsTellTruth(worker: Worker, on: seq<Segment>, lo: int, e: int, says: (int, Label) -> bool)
    requires Truthful(on, says)
    ensures TellsTruth(Framed(worker, lo, Rows(worker, on), e), says)
  {
    var rows := Framed(worker, lo, Rows(worker, on), e);
    forall i, t | 0 < i < |rows| - 1 && Covers(rows[i], t) ensures exists tag :: says(t, tag) && Tells(rows[i], tag) {
      assert rows[i] == RowOf(worker, on[i - 1]);
      assert says(t, on[i - 1].tag) && Tells(rows[i], on[i - 1].tag);
    }
  }

  /**
   * `rows` is the true record of a shift from `lo` to `e` in which the worker's state at `t` is `at(t)` and the
   * labels `says` allows are right.
   */
  ghost predicate TrueShift(worker: Worker, rows: seq<ShiftRow>, lo: int, e: int, at: int -> State,
                            says: (int, Label) -> bool) {
    && TellsTruth(rows, says)
    && |rows| >= 2
    && rows[0] == Marker(worker, StartedShift, lo)
    && rows[|rows| - 1] == Marker(worker, ShiftOver, e)
    && (forall i :: 0 <= i < |rows| - 1 ==> Meet(rows, i))
    && (forall t :: lo <= t < e ==> CoveredAs(rows, t, ToShift(at(t))))
    && (forall s :: TimeIn(rows, ToShift(s)) == Ticks(lo, e, t => at(t) == s))
  }

  lemma RebuiltIsTrue(worker: Worker, segs: seq<Segment>, lo: int, hi: int, at: int -> State,
                      says: (int, Label) -> bool)
    requires segs != [] && Tiles(segs, lo, hi) && Follows(segs, at) && Truthful(segs, says)
    ensures TrueShift(worker, Rebuilt(worker, segs), lo, EndOfShift(segs), at, says)
  {
    OnShiftPart(worker, segs, lo, hi, at);
    var on := segs[..OnShift(segs)];
    assert Truthful(on, says);
    RowsTellTruth(worker, on, lo, EndOfShift(segs), says);
    var e := EndOfShift(segs);
    FramedRowsMeet(worker, on, lo, e);
    forall t | lo <= t < e ensures CoveredAs(Rebuilt(worker, segs), t, ToShift(at(t))) {
      FramedRowsCover(worker, on, lo, e, at, t);
    }
    forall s ensures TimeIn(Rebuilt(worker, segs), ToShift(s)) == Ticks(lo, e, t => at(t) == s) {
      ShiftTime(worker, segs, lo, hi, at, s);
    }
  }

  lemma SegmentsFollow(ivs: seq<Interval>, w: Window)
    requires EntriesOf(ivs, w) != []
    ensures var (lo, hi) := Span(ivs, w, []);
            && lo < hi
            && Segments(ivs, w, []) != []
            && Tiles(Segments(ivs, w, []), lo, hi)
            && Follows(Segments(ivs, w, []), StateOf(ivs, w))
            && Truthful(Segments(ivs, w, []), Meaning(ivs, w))
  {
    var segs := Segments(ivs, w, []);
    SegmentsMeaning(ivs, w, []);
    forall i, t | 0 <= i < |segs| && segs[i].start <= t < segs[i].end
      ensures StateOf(ivs, w)(t) == segs[i].tag.state
    {
      assert Meaning(ivs, w)(t, segs[i].tag);
    }
  }

  /**
   * A rebuilt shift tells the truth about the worker's day. It opens with a zero-length start marker at
   * the first recorded instant, closes with one zero-length end marker at the first off-shift instant,
   * its rows meet without gap or overlap in between, every instant lies in a row of its own effective
   * state, a pause row carries the reason and the transition of a pause that owns its instants, and each
   * state's time is the number of its instants.
   */
  lemma RebuiltShiftMeaning(worker: Worker, ivs: seq<Interval>, w: Window)
    requires EntriesOf(ivs, w) != []
    ensures var (lo, hi) := Span(ivs, w, []);
            var segs := Segments(ivs, w, []);
            && segs != []
            && IsEndOfShift(StateOf(ivs, w), lo, hi, EndOfShift(segs))
            && TrueShift(worker, Rebuilt(worker, segs), lo, EndOfShift(segs), StateOf(ivs, w), Meaning(ivs, w))
  {
    var (lo, hi) := Span(ivs, w, []);
    var segs := Segments(ivs, w, []);
    SegmentsFollow(ivs, w);
    ShiftEnd(segs, lo, hi, StateOf(ivs, w));
    RebuiltIsTrue(worker, segs, lo, hi, StateOf(ivs, w), Meaning(ivs, w));
  }

  // ----- one worker-day -----

  /** A step-state record as both queries read it; `credited` is the credited user or else the creator. */
  datatype Source = Source(
    id: int,
    workspace: Id,
    credited: Option<Id>,
    state: State,
    pauseReason: Option<string>,
    transition: Option<string>,
    enteredAt: int,
    exitedAt: Option<int>,
    isDeleted: bool,
    stepIsLive: bool)   // the joined step exists in the same workspace and is not deleted

  const SHIFT_ENDED := "shift_ended"

  /** Where a record's time counts: its own state, except that pausing because the shift ended means being off shift. */
  function BucketFor(s: State, transition: Option<string>): State {
    if s == Paused && transition == Some(SHIFT_ENDED) then EndedShift else s
  }

  predicate TimeRecord(src: Source) {
    !src.isDeleted && src.stepIsLive && (src.state == Working || src.state == Paused)
  }

  predicate Loads(src: Source, worker: Worker, day: int) {
    && TimeRecord(src)
    && src.workspace == worker.workspace && src.credited == Some(worker.user)
    && src.enteredAt < Midnight(day + 1)
    && (src.exitedAt.None? || src.exitedAt.value > Midnight(day))
  }

  function ToInterval(src: Source): Interval {
    Interval(src.id, BucketFor(src.state, src.transition), src.pauseReason, src.transition, src.enteredAt,
             src.exitedAt, 0)
  }

  function LoadDay(srcs: seq<Source>, worker: Worker, day: int): seq<Interval> {
    if srcs == [] then []
    else
      var rest := LoadDay(srcs[1..], worker, day);
      if Loads(srcs[0], worker, day) then [ToInterval(srcs[0])] + rest else rest
  }

  function DayWindow(day: int, now: int): Window {
    Window(Midnight(day), Midnight(day + 1), if now > Midnight(day + 1) then now else Midnight(day + 1))
  }

  function DayRecords(srcs: seq<Source>, now: int, worker: Worker, day: int): seq<ShiftRow> {
    Rebuilt(worker, Segments(LoadDay(srcs, worker, day), DayWindow(day, now), []))
  }

  predicate InDay(r: ShiftRow, worker: Worker, day: int) {
    r.worker == worker && Midnight(day) <= r.enteredAt < Midnight(day + 1)
  }

  datatype Target = Target(worker: Worker, day: int)

  function Keep(rows: seq<ShiftRow>, t: Target): seq<ShiftRow> {
    if rows == [] then []
    else
      var rest := Keep(rows[1..], t);
      if InDay(rows[0], t.worker, t.day) then rest else [rows[0]] + rest
  }

  /** What the day rebuild gives for each worker-day. */
  function Rebuilder(srcs: seq<Source>, now: int): Target -> seq<ShiftRow> {
    (t: Target) => DayRecords(srcs, now, t.worker, t.day)
  }

  /** Delete the worker's rows that begin in the day, then add the rebuilt ones. */
  function RewriteDay(rows: seq<ShiftRow>, rebuild: Target -> seq<ShiftRow>, t: Target): seq<ShiftRow> {
    Keep(rows, t) + rebuild(t)
  }

  function RewriteAll(rows: seq<ShiftRow>, rebuild: Target -> seq<ShiftRow>, targets: seq<Target>): seq<ShiftRow> {
    if targets == [] then rows
    else
      var n := |targets| - 1;
      RewriteDay(RewriteAll(rows, rebuild, targets[..n]), rebuild, targets[n])
  }

  class ShiftTable {
    var rows: seq<ShiftRow>

    method BackfillDay(srcs: seq<Source>, now: int, t: Target, execute: bool)
      returns (sourceSegments: nat, recordsWritten: nat)
      modifies this
      ensures rows == if execute then RewriteDay(old(rows), Rebuilder(srcs, now), t) else old(rows)
      ensures sourceSegments == |Segments(LoadDay(srcs, t.worker, t.day), DayWindow(t.day, now), [])|
      ensures recordsWritten == |DayRecords(srcs, now, t.worker, t.day)|
    {
      var intervals := LoadDay(srcs, t.worker, t.day);
      var segments := LinearSegments(intervals, DayWindow(t.day, now), []);
      var records := RecordsFromSegments(t.worker, segments);
      if execute {
        rows := Keep(rows, t);
        rows := rows + records;
      }
      sourceSegments, recordsWritten := |segments|, |records|;
    }

    method BackfillAll(srcs: seq<Source>, now: int, targets: seq<Target>, dryRun: bool)
      modifies this
      ensures rows == if dryRun then old(rows) else RewriteAll(old(rows), Rebuilder(srcs, now), targets)
    {
      for i := 0 to |targets|
        invariant rows == if dryRun then old(rows) else RewriteAll(old(rows), Rebuilder(srcs, now), targets[..i])
      {
        assert targets[..i + 1][..i] == targets[..i];
        var _, _ := BackfillDay(srcs, now, targets[i], !dryRun);
      }
      assert targets[..|targets|] == targets;
    }
  }

  // ----- where rebuilt rows begin -----

  lemma EntryInWindow(ivs: seq<Interval>, w: Window, e: Entry)
    requires e in EntriesOf(ivs, w)
    ensures w.start <= e.start < e.end <= w.end
  {
  }

  lemma {:induction false} PointsInWindow(es: seq<Entry>, w: Window)
    requires forall e :: e in es ==> w.start <= e.start < e.end <= w.end
    ensures forall p :: p in Points(es, [], w) ==> w.start <= p <= w.end
  {
    forall p | p in Points(es, [], w) ensures w.start <= p <= w.end {
      PointOrigin(es, [], w, p);
    }
  }

  lemma EntriesInWindow(ivs: seq<Interval>, w: Window)
    ensures forall e :: e in EntriesOf(ivs, w) ==> w.start <= e.start < e.end <= w.end
  {
    forall e | e in EntriesOf(ivs, w) ensures w.start <= e.start < e.end <= w.end {
      EntryInWindow(ivs, w, e);
    }
  }

  lemma EdgesInWindow(points: seq<int>, w: Window)
    requires points != [] && forall p :: p in points ==> w.start <= p <= w.end
    ensures w.start <= points[0] && points[|points| - 1] <= w.end
  {
    assert points[0] in points && points[|points| - 1] in points;
  }

  lemma EntriesSpanWindow(es: seq<Entry>, w: Window)
    requires es != [] && es[0].start < es[0].end
    requires forall e :: e in es ==> w.start <= e.start < e.end <= w.end
    ensures var points := Points(es, [], w); points != [] && w.start <= points[0] && points[|points| - 1] <= w.end
  {
    PointsInWindow(es, w);
    SpanIsProper(es, [], w);
    EdgesInWindow(Points(es, [], w), w);
  }

  lemma FirstEntryIsProper(ivs: seq<Interval>, w: Window)
    requires EntriesOf(ivs, w) != []
    ensures var e := EntriesOf(ivs, w)[0]; e.start < e.end
  {
    EntryInWindow(ivs, w, EntriesOf(ivs, w)[0]);
  }

  lemma SpanInWindow(ivs: seq<Interval>, w: Window)
    requires EntriesOf(ivs, w) != []
    ensures var (lo, hi) := Span(ivs, w, []); w.start <= lo && hi <= w.end
  {
    EntriesInWindow(ivs, w);
    FirstEntryIsProper(ivs, w);
    EntriesSpanWindow(EntriesOf(ivs, w), w);
  }

  lemma NonEmptyHasEntries(ivs: seq<Interval>, w: Window)
    requires Segments(ivs, w, []) != []
    ensures EntriesOf(ivs, w) != []
  {
  }

  lemma FramedBounds(worker: Worker, on: seq<Segment>, lo: int, e: int, hi: int)
    requires Tiles(on, lo, e) && lo <= e <= hi && lo < hi
    ensures var rows := Framed(worker, lo, Rows(worker, on), e);
            forall i :: 0 <= i < |rows| ==>
                rows[i].worker == worker && lo <= rows[i].enteredAt <= hi
                    && (rows[i].enteredAt == hi ==> i == |rows| - 1)
  {
    TilesAt(on, lo, e);
    var rows := Framed(worker, lo, Rows(worker, on), e);
    forall i | 0 < i < |rows| - 1 ensures rows[i] == RowOf(worker, on[i - 1]) && lo <= on[i - 1].start < hi {
    }
  }

  lemma FrameBounds(worker: Worker, segs: seq<Segment>, lo: int, hi: int, at: int -> State)
    requires segs != [] && lo < hi && Tiles(segs, lo, hi) && Follows(segs, at)
    ensures var rows := Rebuilt(worker, segs);
            forall i :: 0 <= i < |rows| ==>
                rows[i].worker == worker && lo <= rows[i].enteredAt <= hi
                    && (rows[i].enteredAt == hi ==> i == |rows| - 1)
  {
    OnShiftPart(worker, segs, lo, hi, at);
    ShiftEnd(segs, lo, hi, at);
    FramedBounds(worker, segs[..OnShift(segs)], lo, EndOfShift(segs), hi);
  }

  ghost predicate Placed(rows: seq<ShiftRow>, t: Target) {
    forall i :: 0 <= i < |rows| ==>
      && rows[i].worker == t.worker
      && Midnight(t.day) <= rows[i].enteredAt <= Midnight(t.day + 1)
      && (rows[i].enteredAt == Midnight(t.day + 1) ==> i == |rows| - 1)
  }

  /** Rebuilt rows begin inside their day, except that the end marker may fall on the next midnight. */
  lemma DayRecordsBegin(srcs: seq<Source>, now: int, worker: Worker, day: int)
    ensures Placed(DayRecords(srcs, now, worker, day), Target(worker, day))
  {
    var ivs := LoadDay(srcs, worker, day);
    var w := DayWindow(day, now);
    var segs := Segments(ivs, w, []);
    if segs != [] {
      NonEmptyHasEntries(ivs, w);
      SegmentsFollow(ivs, w);
      SpanInWindow(ivs, w);
      var (lo, hi) := Span(ivs, w, []);
      FrameBounds(worker, segs, lo, hi, StateOf(ivs, w));
    }
  }

  // ----- whole runs -----

  /**
   * Rebuilt rows belong to their worker and begin in their day, except that the last may begin on the next
   * midnight.
   */
  ghost predicate WellPlaced(rebuild: Target -> seq<ShiftRow>) {
    forall t :: Placed(rebuild(t), t)
  }

  lemma RebuilderIsWellPlaced(srcs: seq<Source>, now: int)
    ensures WellPlaced(Rebuilder(srcs, now))
  {
    forall t ensures Placed(Rebuilder(srcs, now)(t), t) {
      DayRecordsBegin(srcs, now, t.worker, t.day);
      assert Rebuilder(srcs, now)(t) == DayRecords(srcs, now, t.worker, t.day);
    }
  }

  /** Distinct targets, each worker's days in ascending order, as sorting the target set gives them. */
  ghost predicate Ordered(targets: seq<Target>) {
    forall i, j :: 0 <= i < j < |targets| && targets[i].worker == targets[j].worker ==> targets[i].day < targets[j].day
  }

  ghost predicate OnDay(r: ShiftRow, d: int) {
    Midnight(d) <= r.enteredAt < Midnight(d + 1)
  }

  function Count(rows: seq<ShiftRow>, r: ShiftRow): nat {
    multiset(rows)[r]
  }

  lemma {:induction false} KeepCount(rows: seq<ShiftRow>, t: Target, r: ShiftRow)
    ensures Count(Keep(rows, t), r) == if InDay(r, t.worker, t.day) then 0 else Count(rows, r)
  {
    if rows != [] {
      assert rows == [rows[0]] + rows[1..];
      KeepCount(rows[1..], t, r);
    }
  }

  /** A rebuilt row that begins on day `d` comes from day `d` or is the end marker of day `d - 1`. */
  lemma RebuiltElsewhere(rebuild: Target -> seq<ShiftRow>, t: Target, r: ShiftRow, d: int)
    requires WellPlaced(rebuild) && OnDay(r, d) && !(r.worker == t.worker && (d == t.day || d == t.day + 1))
    ensures Count(rebuild(t), r) == 0
  {
    forall i | 0 <= i < |rebuild(t)| ensures rebuild(t)[i] != r {
    }
  }

  /** What a run adds to a day it does not rewrite: the end marker of the day before. */
  ghost function Spill(rebuild: Target -> seq<ShiftRow>, targets: seq<Target>, r: ShiftRow, d: int): nat {
    if Target(r.worker, d - 1) in targets then Count(rebuild(Target(r.worker, d - 1)), r) else 0
  }

  /** One day's rewrite, counted. */
  lemma RewriteCount(rows: seq<ShiftRow>, rebuild: Target -> seq<ShiftRow>, t: Target, r: ShiftRow, d: int)
    requires WellPlaced(rebuild) && OnDay(r, d)
    ensures Count(RewriteDay(rows, rebuild, t), r) ==
              (if t == Target(r.worker, d) then 0 else Count(rows, r))
              + (if t == Target(r.worker, d) || t == Target(r.worker, d - 1) then Count(rebuild(t), r) else 0)
  {
    KeepCount(rows, t, r);
    if t != Target(r.worker, d) && t != Target(r.worker, d - 1) {
      RebuiltElsewhere(rebuild, t, r, d);
    }
  }

  lemma LastTarget(targets: seq<Target>, t: Target)
    requires Ordered(targets) && targets != []
    ensures var n := |targets| - 1;
            && (t in targets <==> t in targets[..n] || t == targets[n])
            && (t.worker == targets[n].worker && t.day >= targets[n].day ==> t !in targets[..n])
  {
    var n := |targets| - 1;
    assert targets == targets[..n] + [targets[n]];
  }

  /**
   * The result of a whole run, row by row. Of the rows that begin on a rewritten day it holds exactly the
   * ones rebuilt for that day, whatever was there before: an end marker that the day before put on this
   * day's midnight is gone too. Any other day keeps its rows and may gain such a marker.
   */
  lemma {:induction false} RunResult(rows: seq<ShiftRow>, rebuild: Target -> seq<ShiftRow>, targets: seq<Target>,
                                     r: ShiftRow, d: int)
    requires WellPlaced(rebuild) && Ordered(targets) && OnDay(r, d)
    ensures Count(RewriteAll(rows, rebuild, targets), r) ==
              if Target(r.worker, d) in targets then Count(rebuild(Target(r.worker, d)), r)
              else Count(rows, r) + Spill(rebuild, targets, r, d)
  {
    if targets != [] {
      var n := |targets| - 1;
      var before := RewriteAll(rows, rebuild, targets[..n]);
      RunResult(rows, rebuild, targets[..n], r, d);
      RewriteCount(before, rebuild, targets[n], r, d);
      LastTarget(targets, Target(r.worker, d));
      LastTarget(targets, Target(r.worker, d - 1));
      assert RewriteAll(rows, rebuild, targets) == RewriteDay(before, rebuild, targets[n]);
    }
  }

  /** The day's rebuilt shift ends exactly on the following midnight. */
  predicate EndsOnMidnight(rebuild: Target -> seq<ShiftRow>, t: Target) {
    var rows := rebuild(t);
    rows != [] && rows[|rows| - 1].enteredAt == Midnight(t.day + 1)
  }

  /** A target whose end marker lands on a day that is not itself rewritten. */
  predicate Dangles(rebuild: Target -> seq<ShiftRow>, targets: seq<Target>, t: Target) {
    t in targets && EndsOnMidnight(rebuild, t) && Target(t.worker, t.day + 1) !in targets
  }

  /** The row has no target of its own and the run adds it all the same. */
  ghost predicate Spills(rebuild: Target -> seq<ShiftRow>, targets: seq<Target>, r: ShiftRow, d: int) {
    Target(r.worker, d) !in targets && Spill(rebuild, targets, r, d) > 0
  }

  lemma DanglingSpills(rebuild: Target -> seq<ShiftRow>, targets: seq<Target>, t: Target) returns (r: ShiftRow)
    requires WellPlaced(rebuild) && Dangles(rebuild, targets, t)
    ensures OnDay(r, t.day + 1) && Spills(rebuild, targets, r, t.day + 1)
  {
    var rows := rebuild(t);
    r := rebuild(t)[|rows| - 1];
    assert r in rows;
    assert Target(r.worker, t.day + 1 - 1) == t;
  }

  lemma SpillingDangles(rebuild: Target -> seq<ShiftRow>, targets: seq<Target>, r: ShiftRow, d: int)
    requires WellPlaced(rebuild) && OnDay(r, d) && Spills(rebuild, targets, r, d)
    ensures Dangles(rebuild, targets, Target(r.worker, d - 1))
  {
    var t := Target(r.worker, d - 1);
    assert r in rebuild(t);
    var i :| 0 <= i < |rebuild(t)| && rebuild(t)[i] == r;
  }

  /** Another run of the same work: the same rebuilt days for the same targets, each worker's days in order. */
  ghost predicate SameRun(rebuild: Target -> seq<ShiftRow>, targets: seq<Target>, rebuild': Target -> seq<ShiftRow>,
                          targets': seq<Target>) {
    && Ordered(targets) && Ordered(targets')
    && (forall t :: rebuild'(t) == rebuild(t))
    && (forall t :: t in targets' <==> t in targets)
  }

  /** A rerun changes the count of exactly the rows that spill. */
  lemma RerunCount(rows: seq<ShiftRow>, rebuild: Target -> seq<ShiftRow>, targets: seq<Target>,
                   rebuild': Target -> seq<ShiftRow>, targets': seq<Target>, r: ShiftRow, d: int)
    requires WellPlaced(rebuild) && WellPlaced(rebuild') && SameRun(rebuild, targets, rebuild', targets') && OnDay(r, d)
    ensures var once := RewriteAll(rows, rebuild, targets);
            Count(RewriteAll(once, rebuild', targets'), r) == Count(once, r) <==> !Spills(rebuild, targets, r, d)
  {
    RunResult(rows, rebuild, targets, r, d);
    RunResult(RewriteAll(rows, rebuild, targets), rebuild', targets', r, d);
    assert rebuild'(Target(r.worker, d)) == rebuild(Target(r.worker, d));
    assert rebuild'(Target(r.worker, d - 1)) == rebuild(Target(r.worker, d - 1));
  }

  lemma DayArithmetic(t: int, day: int)
    ensures Midnight(day) <= t < Midnight(day + 1) <==> DayOf(t) == day
  {
  }

  /**
   * Rerunning changes nothing exactly when no target dangles: no shift ends on a midnight whose day is
   * left alone. Otherwise every rerun adds one more end marker there, because the half-open delete
   * range of the day misses it.
   */
  lemma RerunIsIdempotent(rows: seq<ShiftRow>, rebuild: Target -> seq<ShiftRow>, targets: seq<Target>,
                          rebuild': Target -> seq<ShiftRow>, targets': seq<Target>)
    requires WellPlaced(rebuild) && WellPlaced(rebuild') && SameRun(rebuild, targets, rebuild', targets')
    ensures var once := RewriteAll(rows, rebuild, targets);
            (multiset(RewriteAll(once, rebuild', targets')) == multiset(once)) <==>
                !exists t :: Dangles(rebuild, targets, t)
  {
    var once := RewriteAll(rows, rebuild, targets);
    var twice := RewriteAll(once, rebuild', targets');
    if t :| Dangles(rebuild, targets, t) {
      var r := DanglingSpills(rebuild, targets, t);
      RerunCount(rows, rebuild, targets, rebuild', targets', r, t.day + 1);
      assert Count(twice, r) != Count(once, r);
    } else {
      forall r: ShiftRow ensures multiset(twice)[r] == multiset(once)[r] {
        var d := DayOf(r.enteredAt);
        DayArithmetic(r.enteredAt, d);
        if Spills(rebuild, targets, r, d) {
          SpillingDangles(rebuild, targets, r, d);
        }
        RerunCount(rows, rebuild, targets, rebuild', targets', r, d);
        assert Count(twice, r) == Count(once, r);
      }
    }
  }

  // ----- the order in which the records are read does not matter -----

  /** Record ids are a primary key. */
  ghost predicate DistinctSources(srcs: seq<Source>) {
    forall i, j :: 0 <= i < j < |srcs| ==> srcs[i].id != srcs[j].id
  }

  /** Two readings of the same records, each once, in whatever order. */
  ghost predicate SameRecords(srcs: seq<Source>, srcs': seq<Source>) {
    DistinctSources(srcs) && DistinctSources(srcs') && forall src :: src in srcs <==> src in srcs'
  }

  ghost predicate Feeds(src: Source, worker: Worker, day: int, iv: Interval) {
    Loads(src, worker, day) && ToInterval(src) == iv
  }

  lemma {:induction false} LoadDayHas(srcs: seq<Source>, worker: Worker, day: int, iv: Interval)
    ensures iv in LoadDay(srcs, worker, day) <==> exists src :: src in srcs && Feeds(src, worker, day, iv)
  {
    if srcs != [] {
      LoadDayHas(srcs[1..], worker, day, iv);
      assert srcs == [srcs[0]] + srcs[1..];
      if Feeds(srcs[0], worker, day, iv) {
        assert srcs[0] in srcs;
      }
    }
  }

  lemma {:induction false} LoadDayDistinct(srcs: seq<Source>, worker: Worker, day: int)
    requires DistinctSources(srcs)
    ensures DistinctIds(LoadDay(srcs, worker, day))
  {
    if srcs != [] {
      var rest := LoadDay(srcs[1..], worker, day);
      LoadDayDistinct(srcs[1..], worker, day);
      forall i | 0 <= i < |rest| ensures rest[i].id != srcs[0].id {
        LoadDayHas(srcs[1..], worker, day, rest[i]);
        var src :| src in srcs[1..] && Feeds(src, worker, day, rest[i]);
        var k :| 0 <= k < |srcs| - 1 && srcs[1..][k] == src;
        assert srcs[k + 1] == src;
      }
    }
  }

  lemma LoadDayReordered(srcs: seq<Source>, srcs': seq<Source>, worker: Worker, day: int)
    requires SameRecords(srcs, srcs')
    ensures Reordered(LoadDay(srcs, worker, day), LoadDay(srcs', worker, day))
  {
    LoadDayDistinct(srcs, worker, day);
    LoadDayDistinct(srcs', worker, day);
    forall iv ensures iv in LoadDay(srcs, worker, day) <==> iv in LoadDay(srcs', worker, day) {
      LoadDayHas(srcs, worker, day, iv);
      LoadDayHas(srcs', worker, day, iv);
    }
  }

  /** A historical day is rebuilt the same way at every later moment, so a rerun next month is covered too. */
  lemma RebuildIgnoresNow(srcs: seq<Source>, worker: Worker, day: int, now: int, later: int)
    ensures DayRecords(srcs, now, worker, day) == DayRecords(srcs, later, worker, day)
  {
    HistoryIsStable(LoadDay(srcs, worker, day), DayWindow(day, now), DayWindow(day, later), []);
  }

  /** A day is rebuilt the same way whatever the order its records are read in and, once past, whenever. */
  lemma RebuildIgnoresOrder(srcs: seq<Source>, srcs': seq<Source>, worker: Worker, day: int, now: int, later: int)
    requires SameRecords(srcs, srcs')
    ensures DayRecords(srcs', later, worker, day) == DayRecords(srcs, now, worker, day)
  {
    LoadDayReordered(srcs, srcs', worker, day);
    SegmentsReordered(LoadDay(srcs, worker, day), LoadDay(srcs', worker, day), DayWindow(day, now), []);
    RebuildIgnoresNow(srcs', worker, day, later, now);
  }

  lemma RebuilderIgnoresOrder(srcs: seq<Source>, srcs': seq<Source>, now: int, later: int)
    requires SameRecords(srcs, srcs')
    ensures forall t :: Rebuilder(srcs', later)(t) == Rebuilder(srcs, now)(t)
  {
    forall t ensures Rebuilder(srcs', later)(t) == Rebuilder(srcs, now)(t) {
      RebuildIgnoresOrder(srcs, srcs', t.worker, t.day, now, later);
    }
  }

  /**
   * The same for the real rebuild, over any two readings of the records: reruns are idempotent exactly when
   * no rebuilt shift dangles.
   */
  lemma BackfillIsIdempotent(rows: seq<ShiftRow>, srcs: seq<Source>, srcs': seq<Source>, now: int, later: int,
                             targets: seq<Target>)
    requires Ordered(targets) && SameRecords(srcs, srcs')
    ensures var once := RewriteAll(rows, Rebuilder(srcs, now), targets);
            (multiset(RewriteAll(once, Rebuilder(srcs', later), targets)) == multiset(once))
            <==> !exists t :: Dangles(Rebuilder(srcs, now), targets, t)
  {
    RebuilderIsWellPlaced(srcs, now);
    RebuilderIsWellPlaced(srcs', later);
    RebuilderIgnoresOrder(srcs, srcs', now, later);
    RerunIsIdempotent(rows, Rebuilder(srcs, now), targets, Rebuilder(srcs', later), targets);
  }

  // ----- which rebuilt rows a run leaves in the table -----

  // ----- what a rebuilt day means, told from the step records' own columns -----

  /** A live record of the worker, of work or of a pause. */
  predicate Credited(src: Source, worker: Worker) {
    && !src.isDeleted && src.stepIsLive && (src.state == Working || src.state == Paused)
    && src.workspace == worker.workspace && src.credited == Some(worker.user)
  }

  /** It spans the instant. */
  predicate At(src: Source, worker: Worker, t: int) {
    Credited(src, worker) && src.enteredAt <= t && (src.exitedAt.Some? ==> t < src.exitedAt.value)
  }

  predicate AnyAt(srcs: seq<Source>, worker: Worker, t: int) {
    exists k :: 0 <= k < |srcs| && At(srcs[k], worker, t)
  }

  predicate WorksAt(srcs: seq<Source>, worker: Worker, t: int) {
    exists k :: 0 <= k < |srcs| && At(srcs[k], worker, t) && srcs[k].state == Working
  }

  predicate BeganWork(srcs: seq<Source>, worker: Worker, from: int, t: int) {
    exists k :: && 0 <= k < |srcs| && Credited(srcs[k], worker) && srcs[k].state == Working
                && from < srcs[k].enteredAt <= t
                && (srcs[k].exitedAt.Some? ==> srcs[k].enteredAt < srcs[k].exitedAt.value)
  }

  /** A pause of the worker's own that spans the instant, with no work begun since it or, if later, the day began. */
  predicate PausedIn(srcs: seq<Source>, worker: Worker, day: int, src: Source, t: int) {
    && At(src, worker, t) && src.state == Paused && src.transition != Some("shift_ended")
    && !BeganWork(srcs, worker, if src.enteredAt > Midnight(day) then src.enteredAt else Midnight(day), t)
  }

  predicate PausedAt(srcs: seq<Source>, worker: Worker, day: int, t: int) {
    exists k :: 0 <= k < |srcs| && PausedIn(srcs, worker, day, srcs[k], t)
  }

  /** A pause written because the shift ended spans the instant. */
  predicate OffAt(srcs: seq<Source>, worker: Worker, t: int) {
    exists k :: 0 <= k < |srcs| && At(srcs[k], worker, t) && srcs[k].state == Paused
        && srcs[k].transition == Some("shift_ended")
  }

  /** The worker's shift state at an instant of the day. */
  function TrueState(srcs: seq<Source>, worker: Worker, day: int, t: int): ShiftState {
    if WorksAt(srcs, worker, t) then AtWork
    else if PausedAt(srcs, worker, day, t) then InPause
    else if OffAt(srcs, worker, t) then ShiftOver
    else IdleTime
  }

  /**
   * The row gives the reason and transition of the pause that began first, by id among equally early ones;
   * other rows give none.
   */
  ghost predicate Explained(srcs: seq<Source>, worker: Worker, day: int, r: ShiftRow, t: int) {
    if TrueState(srcs, worker, day, t) == InPause then
      exists k :: && 0 <= k < |srcs| && PausedIn(srcs, worker, day, srcs[k], t)
                  && (forall i :: 0 <= i < |srcs| && PausedIn(srcs, worker, day, srcs[i], t) ==>
                        || srcs[k].enteredAt < srcs[i].enteredAt
                        || (srcs[k].enteredAt == srcs[i].enteredAt && srcs[k].id <= srcs[i].id))
                  && r.transition == srcs[k].transition
                  && r.reason == if srcs[k].pauseReason.None? && srcs[k].transition.None? then Some("unspecified")
                                 else srcs[k].pauseReason
    else r.reason.None? && r.transition.None?
  }

  /** Some row between the markers tells the truth about the instant. */
  ghost predicate Recorded(srcs: seq<Source>, worker: Worker, day: int, rows: seq<ShiftRow>, t: int) {
    exists i :: && 0 < i < |rows| - 1 && rows[i].enteredAt <= t && rows[i].exitedAt.Some? && t < rows[i].exitedAt.value
                && rows[i].state == TrueState(srcs, worker, day, t) && Explained(srcs, worker, day, rows[i], t)
                && rows[i].worker == worker && !rows[i].manual
  }

  /**
   * The rows of a rebuilt day: a start marker where the worker's first record of the day begins, an end marker
   * at the first instant the worker is off shift or else where the records of the day end, and in between
   * rows that say of each instant what the step records say.
   */
  ghost predicate TrueDay(srcs: seq<Source>, worker: Worker, day: int, rows: seq<ShiftRow>) {
    && |rows| >= 2
    && var lo, e := rows[0].enteredAt, rows[|rows| - 1].enteredAt;
       && rows[0] == ShiftRow(worker, StartedShift, lo, Some(lo), None, None, false)
       && rows[|rows| - 1] == ShiftRow(worker, ShiftOver, e, Some(e), None, None, false)
       && Midnight(day) <= lo < Midnight(day + 1) && lo <= e <= Midnight(day + 1)
       && AnyAt(srcs, worker, lo) && (forall t :: Midnight(day) <= t < lo ==> !AnyAt(srcs, worker, t))
       && (forall t :: lo <= t < e ==> TrueState(srcs, worker, day, t) != ShiftOver)
       && (|| (e < Midnight(day + 1) && TrueState(srcs, worker, day, e) == ShiftOver)
           || (forall t :: e <= t < Midnight(day + 1) ==> !AnyAt(srcs, worker, t)))
       && (forall t :: lo <= t < e ==> Recorded(srcs, worker, day, rows, t))
       && (forall i :: 0 <= i < |rows| - 1 ==> rows[i].exitedAt == Some(rows[i + 1].enteredAt))
  }

  lemma LoadsMeans(src: Source, worker: Worker, day: int)
    ensures Loads(src, worker, day) <==>
              && Credited(src, worker) && src.enteredAt < Midnight(day + 1)
              && (src.exitedAt.Some? ==> Midnight(day) < src.exitedAt.value)
  {
  }

  lemma AtIsLoaded(src: Source, worker: Worker, day: int, t: int)
    requires Midnight(day) <= t < Midnight(day + 1) && At(src, worker, t)
    ensures Loads(src, worker, day)
  {
  }

  lemma IntervalMeans(src: Source)
    requires src.state == Working || src.state == Paused
    ensures var iv := ToInterval(src);
            && iv.id == src.id && iv.enteredAt == src.enteredAt && iv.exitedAt == src.exitedAt && iv.priority == 0
            && iv.reason == src.pauseReason && iv.transition == src.transition
            && (iv.state.Working? <==> src.state == Working)
            && (iv.state.Paused? <==> src.state == Paused && src.transition != Some("shift_ended"))
            && (iv.state.EndedShift? <==> src.state == Paused && src.transition == Some("shift_ended"))
  {
  }

  lemma RecordLoaded(srcs: seq<Source>, worker: Worker, day: int, k: nat) returns (j: nat)
    requires k < |srcs| && Loads(srcs[k], worker, day)
    ensures j < |LoadDay(srcs, worker, day)| && LoadDay(srcs, worker, day)[j] == ToInterval(srcs[k])
  {
    var iv := ToInterval(srcs[k]);
    LoadDayHas(srcs, worker, day, iv);
    assert srcs[k] in srcs && Feeds(srcs[k], worker, day, iv);
    j :| 0 <= j < |LoadDay(srcs, worker, day)| && LoadDay(srcs, worker, day)[j] == iv;
  }

  lemma RecordOf(srcs: seq<Source>, worker: Worker, day: int, j: nat) returns (k: nat)
    requires j < |LoadDay(srcs, worker, day)|
    ensures k < |srcs| && Loads(srcs[k], worker, day) && ToInterval(srcs[k]) == LoadDay(srcs, worker, day)[j]
  {
    var iv := LoadDay(srcs, worker, day)[j];
    LoadDayHas(srcs, worker, day, iv);
    var src :| src in srcs && Feeds(src, worker, day, iv);
    k :| 0 <= k < |srcs| && srcs[k] == src;
  }

  lemma BeganSame(srcs: seq<Source>, worker: Worker, day: int, from: int, t: int)
    requires Midnight(day) <= from && t < Midnight(day + 1)
    ensures WorkBegan(LoadDay(srcs, worker, day), from, t) <==> BeganWork(srcs, worker, from, t)
  {
    var ivs := LoadDay(srcs, worker, day);
    if j :| && 0 <= j < |ivs| && ivs[j].state == Working && from < ivs[j].enteredAt <= t
            && (ivs[j].exitedAt.Some? ==> ivs[j].enteredAt < ivs[j].exitedAt.value) {
      var k := RecordOf(srcs, worker, day, j);
      IntervalMeans(srcs[k]);
    }
    if k :| && 0 <= k < |srcs| && Credited(srcs[k], worker) && srcs[k].state == Working
            && from < srcs[k].enteredAt <= t
            && (srcs[k].exitedAt.Some? ==> srcs[k].enteredAt < srcs[k].exitedAt.value) {
      var j := RecordLoaded(srcs, worker, day, k);
      IntervalMeans(srcs[k]);
    }
  }

  lemma PauseSame(srcs: seq<Source>, worker: Worker, day: int, now: int, src: Source, t: int)
    requires Midnight(day) <= t < Midnight(day + 1) && Loads(src, worker, day)
    ensures FreshPause(LoadDay(srcs, worker, day), DayWindow(day, now), ToInterval(src), t) <==>
              PausedIn(srcs, worker, day, src, t)
  {
    IntervalMeans(src);
    BeganSame(srcs, worker, day, if src.enteredAt > Midnight(day) then src.enteredAt else Midnight(day), t);
  }

  lemma ShowsSame(srcs: seq<Source>, worker: Worker, day: int, now: int, t: int)
    requires Midnight(day) <= t < Midnight(day + 1)
    ensures var ivs, w := LoadDay(srcs, worker, day), DayWindow(day, now);
            && (Shows(ivs, w, Working, t) <==> WorksAt(srcs, worker, t))
            && (Shows(ivs, w, Paused, t) <==> PausedAt(srcs, worker, day, t))
            && (Shows(ivs, w, EndedShift, t) <==> OffAt(srcs, worker, t))
  {
    var ivs, w := LoadDay(srcs, worker, day), DayWindow(day, now);
    forall j | 0 <= j < |ivs| && (if ivs[j].state == Paused then FreshPause(ivs, w, ivs[j], t) else Spans(ivs[j], t))
      ensures ivs[j].state == Working ==> WorksAt(srcs, worker, t)
      ensures ivs[j].state == Paused ==> PausedAt(srcs, worker, day, t)
      ensures ivs[j].state == EndedShift ==> OffAt(srcs, worker, t)
    {
      var k := RecordOf(srcs, worker, day, j);
      IntervalMeans(srcs[k]);
      PauseSame(srcs, worker, day, now, srcs[k], t);
    }
    forall k | 0 <= k < |srcs| && At(srcs[k], worker, t)
      ensures srcs[k].state == Working ==> Shows(ivs, w, Working, t)
      ensures PausedIn(srcs, worker, day, srcs[k], t) ==> Shows(ivs, w, Paused, t)
      ensures srcs[k].state == Paused && srcs[k].transition == Some("shift_ended") ==> Shows(ivs, w, EndedShift, t)
    {
      AtIsLoaded(srcs[k], worker, day, t);
      var j := RecordLoaded(srcs, worker, day, k);
      IntervalMeans(srcs[k]);
      PauseSame(srcs, worker, day, now, srcs[k], t);
    }
  }

  /** The swept state of the day's intervals is the state the step records tell. */
  lemma DayStateMeans(srcs: seq<Source>, worker: Worker, day: int, now: int, t: int)
    requires Midnight(day) <= t < Midnight(day + 1)
    ensures ToShift(StateAt(LoadDay(srcs, worker, day), DayWindow(day, now), t)) == TrueState(srcs, worker, day, t)
  {
    StateMeans(LoadDay(srcs, worker, day), DayWindow(day, now), t);
    ShowsSame(srcs, worker, day, now, t);
  }

  /** A row that tells a right label of the instant explains it as the step records do. */
  lemma LabelExplains(srcs: seq<Source>, worker: Worker, day: int, now: int, r: ShiftRow, t: int, tag: Label)
    requires Midnight(day) <= t < Midnight(day + 1)
    requires LabelledBy(LoadDay(srcs, worker, day), DayWindow(day, now), t, tag) && Tells(r, tag)
    ensures r.state == TrueState(srcs, worker, day, t) && Explained(srcs, worker, day, r, t)
  {
    var ivs, w := LoadDay(srcs, worker, day), DayWindow(day, now);
    DayStateMeans(srcs, worker, day, now, t);
    if tag.state == Paused {
      var j: nat :| j < |ivs| && OwnsAt(ivs, w, j, t) && tag == PauseLabel(ivs[j]);
      OwnerMeans(ivs, w, j, t);
      PauseLabelMeans(ivs[j]);
      var k := RecordOf(srcs, worker, day, j);
      IntervalMeans(srcs[k]);
      PauseSame(srcs, worker, day, now, srcs[k], t);
      forall i | 0 <= i < |srcs| && PausedIn(srcs, worker, day, srcs[i], t)
        ensures || srcs[k].enteredAt < srcs[i].enteredAt
                || (srcs[k].enteredAt == srcs[i].enteredAt && srcs[k].id <= srcs[i].id)
      {
        AtIsLoaded(srcs[i], worker, day, t);
        var other := RecordLoaded(srcs, worker, day, i);
        IntervalMeans(srcs[i]);
        PauseSame(srcs, worker, day, now, srcs[i], t);
      }
    }
  }

  lemma InstantIsLive(srcs: seq<Source>, worker: Worker, day: int, now: int, t: int) returns (j: nat)
    requires Midnight(day) <= t < Midnight(day + 1) && AnyAt(srcs, worker, t)
    ensures var ivs, w := LoadDay(srcs, worker, day), DayWindow(day, now);
            j < |ivs| && Live(ivs[j], w) && Start(ivs[j], w) <= t < End(ivs[j], w)
  {
    var k :| 0 <= k < |srcs| && At(srcs[k], worker, t);
    AtIsLoaded(srcs[k], worker, day, t);
    j := RecordLoaded(srcs, worker, day, k);
    IntervalMeans(srcs[k]);
  }

  lemma LiveIsInstant(srcs: seq<Source>, worker: Worker, day: int, now: int, j: nat)
    requires j < |LoadDay(srcs, worker, day)| && Live(LoadDay(srcs, worker, day)[j], DayWindow(day, now))
    ensures var lo := Start(LoadDay(srcs, worker, day)[j], DayWindow(day, now));
            Midnight(day) <= lo < Midnight(day + 1) && AnyAt(srcs, worker, lo)
  {
    var k := RecordOf(srcs, worker, day, j);
    IntervalMeans(srcs[k]);
    assert At(srcs[k], worker, Start(LoadDay(srcs, worker, day)[j], DayWindow(day, now)));
  }

  /** The span of the day's timeline, told from the step records. */
  lemma DaySpanMeans(srcs: seq<Source>, worker: Worker, day: int, now: int, lo: int, hi: int)
    requires var ivs, w := LoadDay(srcs, worker, day), DayWindow(day, now);
             BeginsAt(ivs, w, [], lo) && EndsAt(ivs, w, [], hi)
    ensures Midnight(day) <= lo < Midnight(day + 1) && AnyAt(srcs, worker, lo)
    ensures forall t :: Midnight(day) <= t < lo ==> !AnyAt(srcs, worker, t)
    ensures forall t :: hi <= t < Midnight(day + 1) && Midnight(day) <= t ==> !AnyAt(srcs, worker, t)
  {
    var ivs, w := LoadDay(srcs, worker, day), DayWindow(day, now);
    var j :| 0 <= j < |ivs| && Live(ivs[j], w) && Start(ivs[j], w) == lo;
    LiveIsInstant(srcs, worker, day, now, j);
    forall t | Midnight(day) <= t < Midnight(day + 1) && (t < lo || hi <= t) ensures !AnyAt(srcs, worker, t) {
      if AnyAt(srcs, worker, t) {
        var i := InstantIsLive(srcs, worker, day, now, t);
      }
    }
  }

  lemma LiveMeansRows(worker: Worker, ivs: seq<Interval>, w: Window, j: nat)
    requires j < |ivs| && Live(ivs[j], w)
    ensures EntriesOf(ivs, w) != [] && Rebuilt(worker, Segments(ivs, w, [])) != []
  {
    EntryListed(ivs, w, WorkingStarts(ivs, w), ivs[j]);
    SegmentsFollow(ivs, w);
  }

  /** Which days are rebuilt to nothing: those that no live record of the worker touches. */
  lemma EmptyDayMeans(srcs: seq<Source>, worker: Worker, day: int, now: int)
    ensures DayRecords(srcs, now, worker, day) == [] <==>
              forall t :: Midnight(day) <= t < Midnight(day + 1) ==> !AnyAt(srcs, worker, t)
  {
    var ivs, w := LoadDay(srcs, worker, day), DayWindow(day, now);
    if DayRecords(srcs, now, worker, day) == [] {
      if t :| Midnight(day) <= t < Midnight(day + 1) && AnyAt(srcs, worker, t) {
        var j := InstantIsLive(srcs, worker, day, now, t);
        LiveMeansRows(worker, ivs, w, j);
      }
    } else {
      NonEmptyHasEntries(ivs, w);
      var e := EntriesOf(ivs, w)[0];
      EntrySource(ivs, w, WorkingStarts(ivs, w), e);
      var j :| 0 <= j < |ivs| && ivs[j] == e.interval;
      LiveIsInstant(srcs, worker, day, now, j);
    }
  }

  lemma RowsAreRecorded(srcs: seq<Source>, worker: Worker, day: int, now: int, rows: seq<ShiftRow>, t: int)
    requires Midnight(day) <= t < Midnight(day + 1)
    requires TellsTruth(rows, Meaning(LoadDay(srcs, worker, day), DayWindow(day, now)))
    requires Placed(rows, Target(worker, day))
    requires CoveredAs(rows, t, ToShift(StateAt(LoadDay(srcs, worker, day), DayWindow(day, now), t)))
    ensures Recorded(srcs, worker, day, rows, t)
  {
    var ivs, w := LoadDay(srcs, worker, day), DayWindow(day, now);
    var i :| 0 < i < |rows| - 1 && Covers(rows[i], t);
    var tag :| Meaning(ivs, w)(t, tag) && Tells(rows[i], tag);
    LabelExplains(srcs, worker, day, now, rows[i], t, tag);
  }

  lemma {:induction false} TicksSame(lo: int, hi: int, p: int -> bool, q: int -> bool)
    requires forall t :: lo <= t < hi ==> p(t) == q(t)
    ensures Ticks(lo, hi, p) == Ticks(lo, hi, q)
    decreases hi - lo
  {
    if lo < hi {
      TicksSame(lo + 1, hi, p, q);
    }
  }

  lemma InstantsAsRecorded(srcs: seq<Source>, worker: Worker, day: int, now: int, lo: int, e: int, s: State)
    requires Midnight(day) <= lo && e <= Midnight(day + 1)
    ensures Ticks(lo, e, t => StateOf(LoadDay(srcs, worker, day), DayWindow(day, now))(t) == s)
         == Ticks(lo, e, t => TrueState(srcs, worker, day, t) == ToShift(s))
  {
    var at := StateOf(LoadDay(srcs, worker, day), DayWindow(day, now));
    forall t | lo <= t < e ensures (at(t) == s) == (TrueState(srcs, worker, day, t) == ToShift(s)) {
      DayStateMeans(srcs, worker, day, now, t);
    }
    TicksSame(lo, e, t => at(t) == s, t => TrueState(srcs, worker, day, t) == ToShift(s));
  }

  lemma TrueShiftTimes(srcs: seq<Source>, worker: Worker, day: int, now: int, rows: seq<ShiftRow>, lo: int, e: int,
                       s: State)
    requires Midnight(day) <= lo && e <= Midnight(day + 1)
    requires var ivs, w := LoadDay(srcs, worker, day), DayWindow(day, now);
             TrueShift(worker, rows, lo, e, StateOf(ivs, w), Meaning(ivs, w))
    ensures |rows| >= 2 && rows[0].enteredAt == lo && rows[|rows| - 1].enteredAt == e
    ensures TimeIn(rows, ToShift(s)) == Ticks(lo, e, t => TrueState(srcs, worker, day, t) == ToShift(s))
  {
    InstantsAsRecorded(srcs, worker, day, now, lo, e, s);
  }

  /** Each rebuilt state's time is the number of instants the step records give it before the end of the shift. */
  lemma RebuiltDayTimes(srcs: seq<Source>, worker: Worker, day: int, now: int, s: State)
    requires DayRecords(srcs, now, worker, day) != []
    ensures var rows := DayRecords(srcs, now, worker, day);
            TimeIn(rows, ToShift(s)) ==
              Ticks(rows[0].enteredAt, rows[|rows| - 1].enteredAt, t => TrueState(srcs, worker, day, t) == ToShift(s))
  {
    var ivs, w := LoadDay(srcs, worker, day), DayWindow(day, now);
    NonEmptyHasEntries(ivs, w);
    RebuiltShiftMeaning(worker, ivs, w);
    SpanInWindow(ivs, w);
    TrueShiftTimes(srcs, worker, day, now, DayRecords(srcs, now, worker, day), Span(ivs, w, []).0,
                   EndOfShift(Segments(ivs, w, [])), s);
  }

  lemma TrueShiftIsTrueDay(srcs: seq<Source>, worker: Worker, day: int, now: int, rows: seq<ShiftRow>, lo: int,
                           hi: int, e: int)
    requires var ivs, w := LoadDay(srcs, worker, day), DayWindow(day, now);
             && TrueShift(worker, rows, lo, e, StateOf(ivs, w), Meaning(ivs, w))
             && IsEndOfShift(StateOf(ivs, w), lo, hi, e)
    requires Placed(rows, Target(worker, day)) && hi <= Midnight(day + 1)
    requires Midnight(day) <= lo < Midnight(day + 1) && AnyAt(srcs, worker, lo)
    requires forall t :: Midnight(day) <= t < lo ==> !AnyAt(srcs, worker, t)
    requires forall t :: hi <= t < Midnight(day + 1) && Midnight(day) <= t ==> !AnyAt(srcs, worker, t)
    ensures TrueDay(srcs, worker, day, rows)
  {
    var ivs, w := LoadDay(srcs, worker, day), DayWindow(day, now);
    forall t | lo <= t < e
      ensures TrueState(srcs, worker, day, t) != ShiftOver && Recorded(srcs, worker, day, rows, t)
    {
      assert StateOf(ivs, w)(t) != EndedShift;
      DayStateMeans(srcs, worker, day, now, t);
      RowsAreRecorded(srcs, worker, day, now, rows, t);
    }
    if e < hi {
      assert StateOf(ivs, w)(e) == EndedShift;
      DayStateMeans(srcs, worker, day, now, e);
    }
    forall i | 0 <= i < |rows| - 1 ensures rows[i].exitedAt == Some(rows[i + 1].enteredAt) {
      assert Meet(rows, i);
    }
  }

  /**
   * A rebuilt day tells what the step records tell, in their own columns: work is work, a pause no work followed
   * is a pause with its own reason and transition, a pause written because the shift ended is being off shift and
   * ends the shift where it begins, and everything between is idle.
   */
  lemma RebuiltDayIsTrue(srcs: seq<Source>, worker: Worker, day: int, now: int)
    requires DayRecords(srcs, now, worker, day) != []
    ensures TrueDay(srcs, worker, day, DayRecords(srcs, now, worker, day))
  {
    var ivs, w := LoadDay(srcs, worker, day), DayWindow(day, now);
    NonEmptyHasEntries(ivs, w);
    RebuiltShiftMeaning(worker, ivs, w);
    SpanMeaning(ivs, w, []);
    SpanInWindow(ivs, w);
    DayRecordsBegin(srcs, now, worker, day);
    var (lo, hi) := Span(ivs, w, []);
    DaySpanMeans(srcs, worker, day, now, lo, hi);
    TrueShiftIsTrueDay(srcs, worker, day, now, DayRecords(srcs, now, worker, day), lo, hi,
                       EndOfShift(Segments(ivs, w, [])));
  }

  /** The table holds each of these rows at least as often as it occurs among them. */
  ghost predicate Survives(table: seq<ShiftRow>, rows: seq<ShiftRow>) {
    forall r :: r in rows ==> Count(table, r) >= Count(rows, r)
  }

  function NextDay(t: Target): Target {
    Target(t.worker, t.day + 1)
  }

  /** The day's shift ends on midnight, and rewriting the next day deletes that end marker without putting it back. */
  predicate LosesEnd(rebuild: Target -> seq<ShiftRow>, targets: seq<Target>, t: Target) {
    && EndsOnMidnight(rebuild, t)
    && NextDay(t) in targets
    && rebuild(t)[|rebuild(t)| - 1] !in rebuild(NextDay(t))
  }

  lemma LastOnce(rows: seq<ShiftRow>, t: Target)
    requires Placed(rows, t) && rows != [] && rows[|rows| - 1].enteredAt == Midnight(t.day + 1)
    ensures Count(rows, rows[|rows| - 1]) == 1
  {
    var n := |rows| - 1;
    assert rows == rows[..n] + [rows[n]];
    forall i | 0 <= i < n ensures rows[..n][i] != rows[n] {
      assert rows[i].enteredAt != Midnight(t.day + 1);
    }
    assert rows[n] !in rows[..n];
  }

  /** A rebuilt row either begins in its day, or is the last one and begins on the next midnight. */
  lemma PlacedRow(rows: seq<ShiftRow>, t: Target, r: ShiftRow)
    requires Placed(rows, t) && r in rows
    ensures r.worker == t.worker
    ensures OnDay(r, t.day) || (OnDay(r, t.day + 1) && r.enteredAt == Midnight(t.day + 1) && r == rows[|rows| - 1])
  {
    var i :| 0 <= i < |rows| && rows[i] == r;
  }

  lemma MarkerCount(rows: seq<ShiftRow>, rebuild: Target -> seq<ShiftRow>, targets: seq<Target>, t: Target, r: ShiftRow)
    requires WellPlaced(rebuild) && Ordered(targets) && t in targets && OnDay(r, t.day + 1) && r.worker == t.worker
    ensures Count(RewriteAll(rows, rebuild, targets), r) ==
              if NextDay(t) in targets then Count(rebuild(NextDay(t)), r) else Count(rows, r) + Count(rebuild(t), r)
  {
    var d := t.day + 1;
    assert Target(r.worker, d) == NextDay(t) && Target(r.worker, d - 1) == t;
    RunResult(rows, rebuild, targets, r, d);
  }

  /** One row of a rewritten day is missing from the table exactly when it is the end marker the day loses. */
  lemma OneSurvives(rows: seq<ShiftRow>, rebuild: Target -> seq<ShiftRow>, targets: seq<Target>, t: Target, r: ShiftRow)
    requires WellPlaced(rebuild) && Ordered(targets) && t in targets && r in rebuild(t)
    ensures Count(RewriteAll(rows, rebuild, targets), r) >= Count(rebuild(t), r) <==>
              !(LosesEnd(rebuild, targets, t) && r == rebuild(t)[|rebuild(t)| - 1])
  {
    assert Placed(rebuild(t), t);
    PlacedRow(rebuild(t), t, r);
    if OnDay(r, t.day) {
      RunResult(rows, rebuild, targets, r, t.day);
    } else {
      LastOnce(rebuild(t), t);
      MarkerCount(rows, rebuild, targets, t, r);
    }
  }

  /** A rewritten day's own rows are all in the table, except an end marker on midnight that its next day lost. */
  lemma RebuiltSurvive(rows: seq<ShiftRow>, rebuild: Target -> seq<ShiftRow>, targets: seq<Target>, t: Target)
    requires WellPlaced(rebuild) && Ordered(targets) && t in targets
    ensures Survives(RewriteAll(rows, rebuild, targets), rebuild(t)) <==> !LosesEnd(rebuild, targets, t)
  {
    forall r | r in rebuild(t)
      ensures Count(RewriteAll(rows, rebuild, targets), r) >= Count(rebuild(t), r) <==>
                !(LosesEnd(rebuild, targets, t) && r == rebuild(t)[|rebuild(t)| - 1])
    {
      OneSurvives(rows, rebuild, targets, t, r);
    }
    if LosesEnd(rebuild, targets, t) {
      assert rebuild(t)[|rebuild(t)| - 1] in rebuild(t);
    }
  }

  /** Some record that counts reaches the end of the window. */
  ghost predicate Reaches(ivs: seq<Interval>, w: Window) {
    exists k :: 0 <= k < |ivs| && Live(ivs[k], w) && End(ivs[k], w) == w.end
  }

  ghost predicate WorksThrough(ivs: seq<Interval>, w: Window) {
    var (lo, hi) := Span(ivs, w, []);
    Reaches(ivs, w) && forall x :: lo <= x < hi ==> StateOf(ivs, w)(x) != EndedShift
  }

  /** Some record that counts on the day reaches midnight, and the worker is never off shift that day. */
  ghost predicate WorksToMidnight(srcs: seq<Source>, now: int, t: Target) {
    WorksThrough(LoadDay(srcs, t.worker, t.day), DayWindow(t.day, now))
  }

  /** The last row of the rebuilt shift is the end marker. */
  lemma LastRowBegins(worker: Worker, segs: seq<Segment>)
    requires segs != []
    ensures var rows := Rebuilt(worker, segs);
            rows != [] && rows[|rows| - 1] == Marker(worker, ShiftOver, EndOfShift(segs))
  {
  }

  lemma EndReached(at: int -> State, lo: int, hi: int, e: int)
    requires IsEndOfShift(at, lo, hi, e)
    ensures e == hi <==> forall x :: lo <= x < hi ==> at(x) != EndedShift
  {
  }

  ghost predicate LastIs(points: seq<int>, p: int) {
    points != [] && points[|points| - 1] == p
  }

  /** The rebuilt shift ends when the window closes exactly when the records reach that far and are never off shift. */
  lemma EndsAtClose(worker: Worker, ivs: seq<Interval>, w: Window)
    ensures var rows := Rebuilt(worker, Segments(ivs, w, []));
            var (lo, hi) := Span(ivs, w, []);
            (rows != [] && rows[|rows| - 1].enteredAt == w.end) <==>
              && LastIs(Points(EntriesOf(ivs, w), [], w), w.end)
              && (forall x :: lo <= x < hi ==> StateOf(ivs, w)(x) != EndedShift)
  {
    var segs := Segments(ivs, w, []);
    if EntriesOf(ivs, w) != [] {
      var (lo, hi) := Span(ivs, w, []);
      SegmentsFollow(ivs, w);
      SpanInWindow(ivs, w);
      ShiftEnd(segs, lo, hi, StateOf(ivs, w));
      LastRowBegins(worker, segs);
      EndReached(StateOf(ivs, w), lo, hi, EndOfShift(segs));
    } else if segs != [] {
      NonEmptyHasEntries(ivs, w);
    }
  }

  ghost predicate EntryReaches(es: seq<Entry>, w: Window) {
    exists e :: e in es && e.end == w.end
  }

  lemma {:induction false} EntriesReach(ivs: seq<Interval>, w: Window, starts: seq<int>)
    ensures EntryReaches(Entries(ivs, w, starts), w) <==> Reaches(ivs, w)
  {
    if e :| e in Entries(ivs, w, starts) && e.end == w.end {
      var k :| 0 <= k < |ivs| && Live(ivs[k], w) && MakeEntry(starts, w, ivs[k]) == e;
    }
    if k :| 0 <= k < |ivs| && Live(ivs[k], w) && End(ivs[k], w) == w.end {
      var e := MakeEntry(starts, w, ivs[k]);
      assert e in Entries(ivs, w, starts);
    }
  }

  lemma OriginReaches(es: seq<Entry>, w: Window)
    requires forall x :: x in es ==> w.start <= x.start < x.end <= w.end
    requires exists e :: e in es && (w.end == e.start || w.end == e.end)
    ensures EntryReaches(es, w)
  {
  }

  lemma LastPoint(points: seq<int>, p: int)
    requires Increasing(points) && p in points && forall q :: q in points ==> q <= p
    ensures points[|points| - 1] == p
  {
    var i :| 0 <= i < |points| && points[i] == p;
    assert points[|points| - 1] in points;
  }

  lemma LastReaches(es: seq<Entry>, w: Window, points: seq<int>)
    requires Increasing(points) && EntryReaches(es, w)
    requires forall e :: e in es ==> e.end in points
    requires forall p :: p in points ==> w.start <= p <= w.end
    ensures LastIs(points, w.end)
  {
    var e :| e in es && e.end == w.end;
    LastPoint(points, w.end);
  }

  lemma PointsReach(es: seq<Entry>, w: Window)
    requires forall x :: x in es ==> w.start <= x.start < x.end <= w.end
    ensures LastIs(Points(es, [], w), w.end) <==> EntryReaches(es, w)
  {
    if LastIs(Points(es, [], w), w.end) {
      PointOrigin(es, [], w, w.end);
      OriginReaches(es, w);
    } else if EntryReaches(es, w) {
      PointsInWindow(es, w);
      forall e | e in es ensures e.end in Points(es, [], w) {
        EdgesArePoints(es, [], w, e);
      }
      LastReaches(es, w, Points(es, [], w));
    }
  }

  lemma ReachesEnd(ivs: seq<Interval>, w: Window)
    ensures LastIs(Points(EntriesOf(ivs, w), [], w), w.end) <==> Reaches(ivs, w)
  {
    EntriesReach(ivs, w, WorkingStarts(ivs, w));
    EntriesInWindow(ivs, w);
    PointsReach(EntriesOf(ivs, w), w);
  }

  /** The rebuilt shift ends when the window closes exactly when the worker works through to that moment. */
  lemma ClosesShift(worker: Worker, ivs: seq<Interval>, w: Window)
    ensures var rows := Rebuilt(worker, Segments(ivs, w, []));
            (rows != [] && rows[|rows| - 1].enteredAt == w.end) <==> WorksThrough(ivs, w)
  {
    ReachesEnd(ivs, w);
    EndsAtClose(worker, ivs, w);
  }

  /**
   * When a rebuilt shift ends on midnight, told from the records alone: some record that counts on the
   * day reaches midnight, and at no instant of the day is the worker off shift.
   */
  lemma EndsOnMidnightMeaning(srcs: seq<Source>, now: int, t: Target)
    ensures EndsOnMidnight(Rebuilder(srcs, now), t) <==> WorksToMidnight(srcs, now, t)
  {
    ClosesShift(t.worker, LoadDay(srcs, t.worker, t.day), DayWindow(t.day, now));
  }

  ghost predicate OffAtStart(ivs: seq<Interval>, w: Window) {
    StateAt(ivs, w, w.start) == EndedShift
  }

  /** The worker is off shift at the first instant of the day. */
  ghost predicate OffAtMidnight(srcs: seq<Source>, now: int, t: Target) {
    OffAtStart(LoadDay(srcs, t.worker, t.day), DayWindow(t.day, now))
  }

  lemma MarkerIsEnd(worker: Worker, segs: seq<Segment>, x: int)
    requires segs != []
    ensures Marker(worker, ShiftOver, x) in Rebuilt(worker, segs) <==> EndOfShift(segs) == x
  {
    var on := segs[..OnShift(segs)];
    var rows := Rebuilt(worker, segs);
    forall i | 0 < i < |rows| - 1 ensures rows[i].state != ShiftOver {
      assert rows[i] == RowOf(worker, on[i - 1]);
    }
    assert rows[|rows| - 1] == Marker(worker, ShiftOver, EndOfShift(segs));
    assert rows[|rows| - 1] in rows;
  }

  lemma FirstPoint(points: seq<int>, p: int)
    requires Increasing(points) && p in points && forall q :: q in points ==> p <= q
    ensures points[0] == p
  {
    var i :| 0 <= i < |points| && points[i] == p;
    assert points[0] in points;
  }

  lemma FirstIsStart(es: seq<Entry>, w: Window, e: Entry)
    requires e in es && e.start == w.start
    requires forall x :: x in es ==> w.start <= x.start < x.end <= w.end
    ensures var points := Points(es, [], w); points != [] && points[0] == w.start
  {
    PointsInWindow(es, w);
    EdgesArePoints(es, [], w, e);
    FirstPoint(Points(es, [], w), w.start);
  }

  /** A worker who is off shift when the window opens has records from that very instant. */
  lemma OpensAtStart(ivs: seq<Interval>, w: Window)
    requires StateAt(ivs, w, w.start) == EndedShift
    ensures EntriesOf(ivs, w) != [] && Span(ivs, w, []).0 == w.start
  {
    var k :| 0 <= k < |ivs| && ivs[k].state == EndedShift && ActiveAt(ivs, w, ivs[k], w.start);
    var e := MakeEntry(WorkingStarts(ivs, w), w, ivs[k]);
    assert e in EntriesOf(ivs, w) && e.start == w.start;
    EntriesInWindow(ivs, w);
    FirstIsStart(EntriesOf(ivs, w), w, e);
  }

  lemma EndsAtOnce(at: int -> State, lo: int, hi: int, e: int, start: int)
    requires IsEndOfShift(at, lo, hi, e) && start <= lo < hi && (at(start) == EndedShift ==> lo == start)
    ensures e == start <==> at(start) == EndedShift
  {
  }

  /** The rebuilt shift holds an end marker at the opening instant exactly when the worker is off shift there. */
  lemma MarkerAtStart(worker: Worker, ivs: seq<Interval>, w: Window)
    ensures Marker(worker, ShiftOver, w.start) in Rebuilt(worker, Segments(ivs, w, [])) <==> OffAtStart(ivs, w)
  {
    var segs := Segments(ivs, w, []);
    if StateAt(ivs, w, w.start) == EndedShift {
      OpensAtStart(ivs, w);
    }
    if EntriesOf(ivs, w) != [] {
      var (lo, hi) := Span(ivs, w, []);
      SegmentsFollow(ivs, w);
      SpanInWindow(ivs, w);
      ShiftEnd(segs, lo, hi, StateOf(ivs, w));
      MarkerIsEnd(worker, segs, w.start);
      EndsAtOnce(StateOf(ivs, w), lo, hi, EndOfShift(segs), w.start);
    } else if segs != [] {
      NonEmptyHasEntries(ivs, w);
    }
  }

  /** The end marker of a shift that ends on midnight. */
  function MidnightMarker(t: Target): ShiftRow {
    Marker(t.worker, ShiftOver, Midnight(t.day + 1))
  }

  lemma EndRowIsMarker(srcs: seq<Source>, now: int, t: Target)
    requires EndsOnMidnight(Rebuilder(srcs, now), t)
    ensures var rows := Rebuilder(srcs, now)(t); rows[|rows| - 1] == MidnightMarker(t)
  {
    var segs := Segments(LoadDay(srcs, t.worker, t.day), DayWindow(t.day, now), []);
    assert Rebuilder(srcs, now)(t) == Rebuilt(t.worker, segs);
    LastRowBegins(t.worker, segs);
  }

  lemma NextHoldsMarker(srcs: seq<Source>, now: int, t: Target)
    ensures MidnightMarker(t) in Rebuilder(srcs, now)(NextDay(t)) <==> OffAtMidnight(srcs, now, NextDay(t))
  {
    var u := NextDay(t);
    MarkerAtStart(u.worker, LoadDay(srcs, u.worker, u.day), DayWindow(u.day, now));
  }

  lemma LosesEndIff(rebuild: Target -> seq<ShiftRow>, targets: seq<Target>, t: Target, off: bool)
    requires EndsOnMidnight(rebuild, t) ==> rebuild(t)[|rebuild(t)| - 1] == MidnightMarker(t)
    requires MidnightMarker(t) in rebuild(NextDay(t)) <==> off
    ensures LosesEnd(rebuild, targets, t) <==> EndsOnMidnight(rebuild, t) && NextDay(t) in targets && !off
  {
  }

  /** When a rewritten day loses its end marker, told from the records. */
  lemma LosesEndMeaning(srcs: seq<Source>, now: int, targets: seq<Target>, t: Target)
    ensures LosesEnd(Rebuilder(srcs, now), targets, t) <==>
              WorksToMidnight(srcs, now, t) && NextDay(t) in targets && !OffAtMidnight(srcs, now, NextDay(t))
  {
    EndsOnMidnightMeaning(srcs, now, t);
    if EndsOnMidnight(Rebuilder(srcs, now), t) {
      EndRowIsMarker(srcs, now, t);
    }
    NextHoldsMarker(srcs, now, t);
    LosesEndIff(Rebuilder(srcs, now), targets, t, OffAtMidnight(srcs, now, NextDay(t)));
  }

  /**
   * What a run leaves of each day it rewrote: the whole rebuilt shift is in the table, unless the worker was
   * on shift right up to midnight and is not off shift from midnight on, and the next day was rewritten too.
   * Then the next day's delete took the end marker with it.
   */
  lemma BackfillKeepsShifts(rows: seq<ShiftRow>, srcs: seq<Source>, now: int, targets: seq<Target>, t: Target)
    requires Ordered(targets) && t in targets
    ensures Survives(RewriteAll(rows, Rebuilder(srcs, now), targets), DayRecords(srcs, now, t.worker, t.day)) <==>
              !(WorksToMidnight(srcs, now, t) && NextDay(t) in targets && !OffAtMidnight(srcs, now, NextDay(t)))
  {
    RebuilderIsWellPlaced(srcs, now);
    RebuiltSurvive(rows, Rebuilder(srcs, now), targets, t);
    LosesEndMeaning(srcs, now, targets, t);
    assert Rebuilder(srcs, now)(t) == DayRecords(srcs, now, t.worker, t.day);
  }

  // ----- which worker-days are rewritten -----

  predicate Selects(src: Source, workspace: Option<Id>, user: Option<Id>) {
    && TimeRecord(src) && src.credited.Some?
    && (workspace.Some? ==> src.workspace == workspace.value)
    && (user.Some? ==> src.credited == user)
  }

  function FirstDay(src: Source, dateFrom: Option<int>): int {
    var d := DayOf(src.enteredAt);
    if dateFrom.Some? && dateFrom.value > d then dateFrom.value else d
  }

  function LastDay(src: Source, dateTo: int, now: int): int {
    var end := if src.exitedAt.Some? then src.exitedAt.value else now;
    var effective := if end > Midnight(dateTo + 1) then Midnight(dateTo + 1) else end;
    var d := if effective > src.enteredAt then DayOf(effective - 1) else DayOf(src.enteredAt);
    if d > dateTo then dateTo else d
  }

  function WorkerOf(src: Source): Worker
    requires src.credited.Some?
  {
    Worker(src.workspace, src.credited.value)
  }

  predicate InRange(t: Target, worker: Worker, first: int, last: int) {
    t.worker == worker && first <= t.day <= last
  }

  /** The record is selected and reaches the worker-day. */
  predicate Hits(src: Source, dateFrom: Option<int>, dateTo: int, workspace: Option<Id>, user: Option<Id>, now: int,
                 t: Target) {
    Selects(src, workspace, user) && InRange(t, WorkerOf(src), FirstDay(src, dateFrom), LastDay(src, dateTo, now))
  }

  /** Some selected record among the first `n` makes the worker-day a target. */
  predicate IsTarget(srcs: seq<Source>, n: nat, dateFrom: Option<int>, dateTo: int, workspace: Option<Id>,
                     user: Option<Id>, now: int, t: Target)
    requires n <= |srcs|
  {
    exists k :: 0 <= k < n && Hits(srcs[k], dateFrom, dateTo, workspace, user, now, t)
  }

  /** The inner loop: a day cursor walking from the first day to the last. */
  method AddDays(earlier: set<Target>, worker: Worker, first: int, last: int) returns (targets: set<Target>)
    ensures forall t :: t in targets <==> t in earlier || InRange(t, worker, first, last)
  {
    targets := earlier;
    var cursor := first;
    while cursor <= last
      invariant first <= cursor
      invariant forall t :: t in targets <==>
                  t in earlier || (t.worker == worker && first <= t.day < cursor && t.day <= last)
    {
      targets := targets + {Target(worker, cursor)};
      cursor := cursor + 1;
    }
  }

  lemma TargetStep(srcs: seq<Source>, n: nat, dateFrom: Option<int>, dateTo: int, workspace: Option<Id>,
                   user: Option<Id>, now: int, t: Target)
    requires n < |srcs|
    ensures IsTarget(srcs, n + 1, dateFrom, dateTo, workspace, user, now, t) <==>
            IsTarget(srcs, n, dateFrom, dateTo, workspace, user, now, t)
                || Hits(srcs[n], dateFrom, dateTo, workspace, user, now, t)
  {
  }

  method CollectTargets(srcs: seq<Source>, dateFrom: Option<int>, dateTo: int, workspace: Option<Id>,
                        user: Option<Id>, now: int)
    returns (targets: set<Target>)
    ensures forall t :: t in targets <==> IsTarget(srcs, |srcs|, dateFrom, dateTo, workspace, user, now, t)
  {
    targets := {};
    for i := 0 to |srcs|
      invariant forall t :: t in targets <==> IsTarget(srcs, i, dateFrom, dateTo, workspace, user, now, t)
    {
      ghost var earlier := targets;
      if Selects(srcs[i], workspace, user) {
        targets := AddDays(targets, WorkerOf(srcs[i]), FirstDay(srcs[i], dateFrom), LastDay(srcs[i], dateTo, now));
      }
      forall t ensures t in targets <==> IsTarget(srcs, i + 1, dateFrom, dateTo, workspace, user, now, t) {
        TargetStep(srcs, i, dateFrom, dateTo, workspace, user, now, t);
        assert t in earlier <==> IsTarget(srcs, i, dateFrom, dateTo, workspace, user, now, t);
      }
    }
  }

  /**
   * Exactly which days a record makes a target: the days in range on which the day loader would return
   * it, and the day it began on if it ended no later than that day's midnight.
   */
  lemma ReachedDays(src: Source, dateFrom: Option<int>, dateTo: int, now: int, day: int)
    requires TimeRecord(src) && src.credited.Some? && now >= Midnight(dateTo + 1)
    ensures (FirstDay(src, dateFrom) <= day <= LastDay(src, dateTo, now)) <==>
              && day <= dateTo && (dateFrom.Some? ==> dateFrom.value <= day)
              && (Loads(src, WorkerOf(src), day)
                  || (DayOf(src.enteredAt) == day && src.exitedAt.Some? && src.exitedAt.value <= Midnight(day)))
  {
    DayArithmetic(src.enteredAt, day);
    var end := if src.exitedAt.Some? then src.exitedAt.value else now;
    var effective := if end > Midnight(dateTo + 1) then Midnight(dateTo + 1) else end;
    DayArithmetic(effective - 1, day);
  }

  predicate ReachesDay(src: Source, t: Target) {
    && Credited(src, t.worker)
    && (|| (src.enteredAt < Midnight(t.day + 1) && (src.exitedAt.Some? ==> Midnight(t.day) < src.exitedAt.value))
        || (Midnight(t.day) <= src.enteredAt < Midnight(t.day + 1) && src.exitedAt.Some?
            && src.exitedAt.value <= Midnight(t.day)))
  }

  lemma OneReaches(src: Source, dateFrom: Option<int>, dateTo: int, workspace: Option<Id>, user: Option<Id>, now: int,
                   t: Target)
    requires now >= Midnight(dateTo + 1)
    ensures Hits(src, dateFrom, dateTo, workspace, user, now, t) <==>
              && t.day <= dateTo && (dateFrom.Some? ==> dateFrom.value <= t.day)
              && (workspace.Some? ==> t.worker.workspace == workspace.value)
              && (user.Some? ==> t.worker.user == user.value)
              && ReachesDay(src, t)
  {
    if TimeRecord(src) && src.credited.Some? {
      ReachedDays(src, dateFrom, dateTo, now, t.day);
      DayArithmetic(src.enteredAt, t.day);
    }
  }

  /**
   * The targets of a past range, told from the columns: the worker-days within the filters that a live record of
   * the worker reaches, and those on which one begins that ends no later than that day's midnight.
   */
  lemma TargetMeans(srcs: seq<Source>, dateFrom: Option<int>, dateTo: int, workspace: Option<Id>, user: Option<Id>,
                    now: int, t: Target)
    requires now >= Midnight(dateTo + 1)
    ensures IsTarget(srcs, |srcs|, dateFrom, dateTo, workspace, user, now, t) <==>
              && t.day <= dateTo && (dateFrom.Some? ==> dateFrom.value <= t.day)
              && (workspace.Some? ==> t.worker.workspace == workspace.value)
              && (user.Some? ==> t.worker.user == user.value)
              && exists k :: 0 <= k < |srcs| && ReachesDay(srcs[k], t)
  {
    forall k | 0 <= k < |srcs|
      ensures Hits(srcs[k], dateFrom, dateTo, workspace, user, now, t) <==>
                && t.day <= dateTo && (dateFrom.Some? ==> dateFrom.value <= t.day)
                && (workspace.Some? ==> t.worker.workspace == workspace.value)
                && (user.Some? ==> t.worker.user == user.value)
                && ReachesDay(srcs[k], t)
    {
      OneReaches(srcs[k], dateFrom, dateTo, workspace, user, now, t);
    }
  }

  lemma {:induction false} LoadedRecord(srcs: seq<Source>, worker: Worker, day: int) returns (k: nat)
    requires LoadDay(srcs, worker, day) != []
    ensures k < |srcs| && Loads(srcs[k], worker, day)
  {
    if Loads(srcs[0], worker, day) {
      k := 0;
    } else {
      k := LoadedRecord(srcs[1..], worker, day);
      k := k + 1;
    }
  }

  /** Day selection misses nothing: a worker-day in range that the loader would fill is a target. */
  lemma SelectionIsComplete(srcs: seq<Source>, dateFrom: Option<int>, dateTo: int, workspace: Option<Id>,
                            user: Option<Id>, now: int, t: Target)
    requires now >= Midnight(dateTo + 1)
    requires t.day <= dateTo && (dateFrom.Some? ==> dateFrom.value <= t.day)
    requires (workspace.Some? ==> t.worker.workspace == workspace.value) && (user.Some? ==> t.worker.user == user.value)
    requires LoadDay(srcs, t.worker, t.day) != []
    ensures IsTarget(srcs, |srcs|, dateFrom, dateTo, workspace, user, now, t)
  {
    var k := LoadedRecord(srcs, t.worker, t.day);
    ReachedDays(srcs[k], dateFrom, dateTo, now, t.day);
    assert Hits(srcs[k], dateFrom, dateTo, workspace, user, now, t);
  }

  // ----- the script: select, sort, rewrite -----

  /** The targets of a range, each worker's days in order. */
  ghost predicate InOrder(targets: seq<Target>, srcs: seq<Source>, dateFrom: Option<int>, dateTo: int,
                          workspace: Option<Id>, user: Option<Id>, now: int)
  {
    && Ordered(targets)
    && forall t :: t in targets <==> IsTarget(srcs, |srcs|, dateFrom, dateTo, workspace, user, now, t)
  }

  /** Once the range lies in the past, which worker-days it selects no longer depends on the moment of the run. */
  lemma SelectionIgnoresNow(srcs: seq<Source>, dateFrom: Option<int>, dateTo: int, workspace: Option<Id>,
                            user: Option<Id>, now: int, later: int, t: Target)
    requires now >= Midnight(dateTo + 1) && later >= Midnight(dateTo + 1)
    ensures IsTarget(srcs, |srcs|, dateFrom, dateTo, workspace, user, now, t) <==>
            IsTarget(srcs, |srcs|, dateFrom, dateTo, workspace, user, later, t)
  {
    forall k | 0 <= k < |srcs|
      ensures Hits(srcs[k], dateFrom, dateTo, workspace, user, now, t) <==>
                Hits(srcs[k], dateFrom, dateTo, workspace, user, later, t)
    {
      if Selects(srcs[k], workspace, user) {
        ReachedDays(srcs[k], dateFrom, dateTo, now, t.day);
        ReachedDays(srcs[k], dateFrom, dateTo, later, t.day);
      }
    }
  }

  lemma SelectionIgnoresOrder(srcs: seq<Source>, srcs': seq<Source>, dateFrom: Option<int>, dateTo: int,
                              workspace: Option<Id>, user: Option<Id>, now: int, t: Target)
    requires forall src :: src in srcs <==> src in srcs'
    ensures IsTarget(srcs, |srcs|, dateFrom, dateTo, workspace, user, now, t) <==>
            IsTarget(srcs', |srcs'|, dateFrom, dateTo, workspace, user, now, t)
  {
    if k :| 0 <= k < |srcs| && Hits(srcs[k], dateFrom, dateTo, workspace, user, now, t) {
      assert srcs[k] in srcs';
    }
    if k :| 0 <= k < |srcs'| && Hits(srcs'[k], dateFrom, dateTo, workspace, user, now, t) {
      assert srcs'[k] in srcs;
    }
  }

  /** A worker-day of the range that ends on a midnight whose day the range does not rewrite. */
  ghost predicate EndsOutside(srcs: seq<Source>, dateFrom: Option<int>, dateTo: int, workspace: Option<Id>,
                              user: Option<Id>, now: int, t: Target)
  {
    && IsTarget(srcs, |srcs|, dateFrom, dateTo, workspace, user, now, t)
    && WorksToMidnight(srcs, now, t)
    && !IsTarget(srcs, |srcs|, dateFrom, dateTo, workspace, user, now, NextDay(t))
  }

  lemma OneDangles(srcs: seq<Source>, dateFrom: Option<int>, dateTo: int, workspace: Option<Id>, user: Option<Id>,
                   now: int, targets: seq<Target>, t: Target)
    requires InOrder(targets, srcs, dateFrom, dateTo, workspace, user, now)
    ensures Dangles(Rebuilder(srcs, now), targets, t) <==> EndsOutside(srcs, dateFrom, dateTo, workspace, user, now, t)
  {
    EndsOnMidnightMeaning(srcs, now, t);
    assert t in targets <==> IsTarget(srcs, |srcs|, dateFrom, dateTo, workspace, user, now, t);
    assert NextDay(t) in targets <==> IsTarget(srcs, |srcs|, dateFrom, dateTo, workspace, user, now, NextDay(t));
  }

  lemma DanglingMeaning(srcs: seq<Source>, dateFrom: Option<int>, dateTo: int, workspace: Option<Id>, user: Option<Id>,
                        now: int, targets: seq<Target>)
    requires InOrder(targets, srcs, dateFrom, dateTo, workspace, user, now)
    ensures (exists t :: Dangles(Rebuilder(srcs, now), targets, t))
       <==> exists t :: EndsOutside(srcs, dateFrom, dateTo, workspace, user, now, t)
  {
    forall t
      ensures Dangles(Rebuilder(srcs, now), targets, t) <==>
                EndsOutside(srcs, dateFrom, dateTo, workspace, user, now, t)
    {
      OneDangles(srcs, dateFrom, dateTo, workspace, user, now, targets, t);
    }
  }

  lemma SameWork(srcs: seq<Source>, srcs': seq<Source>, dateFrom: Option<int>, dateTo: int, workspace: Option<Id>,
                 user: Option<Id>, now: int, later: int, targets: seq<Target>, targets': seq<Target>)
    requires SameRecords(srcs, srcs') && now >= Midnight(dateTo + 1) && later >= Midnight(dateTo + 1)
    requires InOrder(targets, srcs, dateFrom, dateTo, workspace, user, now)
    requires InOrder(targets', srcs', dateFrom, dateTo, workspace, user, later)
    ensures SameRun(Rebuilder(srcs, now), targets, Rebuilder(srcs', later), targets')
    ensures WellPlaced(Rebuilder(srcs, now)) && WellPlaced(Rebuilder(srcs', later))
  {
    RebuilderIsWellPlaced(srcs, now);
    RebuilderIsWellPlaced(srcs', later);
    RebuilderIgnoresOrder(srcs, srcs', now, later);
    forall t ensures t in targets' <==> t in targets {
      SelectionIgnoresNow(srcs, dateFrom, dateTo, workspace, user, now, later, t);
      SelectionIgnoresOrder(srcs, srcs', dateFrom, dateTo, workspace, user, later, t);
    }
  }

  /**
   * The whole script, run twice over the same range at any two later moments, each time reading the records in
   * whatever order the database gives: the second run changes nothing exactly when no selected worker-day ends
   * on a midnight whose day is not selected.
   */
  lemma ScriptIsIdempotent(rows: seq<ShiftRow>, srcs: seq<Source>, srcs': seq<Source>, dateFrom: Option<int>,
                           dateTo: int,
                           workspace: Option<Id>, user: Option<Id>, now: int, later: int,
                           targets: seq<Target>, targets': seq<Target>)
    requires SameRecords(srcs, srcs') && now >= Midnight(dateTo + 1) && later >= Midnight(dateTo + 1)
    requires InOrder(targets, srcs, dateFrom, dateTo, workspace, user, now)
    requires InOrder(targets', srcs', dateFrom, dateTo, workspace, user, later)
    ensures var once := RewriteAll(rows, Rebuilder(srcs, now), targets);
            (multiset(RewriteAll(once, Rebuilder(srcs', later), targets')) == multiset(once)) <==>
              !exists t :: EndsOutside(srcs, dateFrom, dateTo, workspace, user, now, t)
  {
    SameWork(srcs, srcs', dateFrom, dateTo, workspace, user, now, later, targets, targets');
    RerunIsIdempotent(rows, Rebuilder(srcs, now), targets, Rebuilder(srcs', later), targets');
    DanglingMeaning(srcs, dateFrom, dateTo, workspace, user, now, targets);
  }

  // ----- sorting the targets -----

  /** Lexicographic order of strings. */
  predicate TextLess(a: string, b: string) {
    b != "" && (a == "" || a[0] < b[0] || (a[0] == b[0] && TextLess(a[1..], b[1..])))
  }

  lemma {:induction false} TextTrichotomy(a: string, b: string)
    ensures a == b || TextLess(a, b) || TextLess(b, a)
  {
    if a != "" && b != "" && a[0] == b[0] {
      TextTrichotomy(a[1..], b[1..]);
      assert a == [a[0]] + a[1..] && b == [b[0]] + b[1..];
    }
  }

  lemma {:induction false} TextTransitive(a: string, b: string, c: string)
    requires TextLess(a, b) && TextLess(b, c)
    ensures TextLess(a, c)
  {
    if a != "" && a[0] == b[0] == c[0] {
      TextTransitive(a[1..], b[1..], c[1..]);
    }
  }

  lemma {:induction false} TextIrreflexive(a: string)
    ensures !TextLess(a, a)
  {
    if a != "" {
      TextIrreflexive(a[1..]);
    }
  }

  /** The order of `(workspace_id, user_id, work_date)` tuples. */
  predicate Before(a: Target, b: Target) {
    || TextLess(a.worker.workspace, b.worker.workspace)
    || (a.worker.workspace == b.worker.workspace && TextLess(a.worker.user, b.worker.user))
    || (a.worker == b.worker && a.day < b.day)
  }

  lemma BeforeTransitive(a: Target, b: Target, c: Target)
    requires Before(a, b) && Before(b, c)
    ensures Before(a, c)
  {
    if TextLess(a.worker.workspace, b.worker.workspace) && TextLess(b.worker.workspace, c.worker.workspace) {
      TextTransitive(a.worker.workspace, b.worker.workspace, c.worker.workspace);
    } else if TextLess(a.worker.user, b.worker.user) && TextLess(b.worker.user, c.worker.user) {
      TextTransitive(a.worker.user, b.worker.user, c.worker.user);
    }
  }

  lemma BeforeTotal(a: Target, b: Target)
    requires a != b && !Before(a, b)
    ensures Before(b, a)
  {
    TextTrichotomy(a.worker.workspace, b.worker.workspace);
    TextTrichotomy(a.worker.user, b.worker.user);
  }

  ghost predicate Sorted(targets: seq<Target>) {
    forall i, j :: 0 <= i < j < |targets| ==> Before(targets[i], targets[j])
  }

  lemma SortedIsOrdered(targets: seq<Target>)
    requires Sorted(targets)
    ensures Ordered(targets)
  {
    forall i, j | 0 <= i < j < |targets| && targets[i].worker == targets[j].worker
      ensures targets[i].day < targets[j].day
    {
      assert Before(targets[i], targets[j]);
      TextIrreflexive(targets[i].worker.workspace);
      TextIrreflexive(targets[i].worker.user);
    }
  }

  function Place(t: Target, targets: seq<Target>): seq<Target> {
    if targets == [] then [t]
    else if Before(t, targets[0]) then [t] + targets
    else [targets[0]] + Place(t, targets[1..])
  }

  lemma {:induction false} PlaceSorts(t: Target, targets: seq<Target>)
    requires Sorted(targets) && t !in targets
    ensures Sorted(Place(t, targets))
    ensures forall x :: x in Place(t, targets) <==> x == t || x in targets
  {
    if targets == [] {
    } else if Before(t, targets[0]) {
      forall j | 0 < j < |targets| ensures Before(t, targets[j]) {
        BeforeTransitive(t, targets[0], targets[j]);
      }
    } else {
      var rest := Place(t, targets[1..]);
      PlaceSorts(t, targets[1..]);
      BeforeTotal(t, targets[0]);
      assert targets == [targets[0]] + targets[1..];
      forall j | 0 <= j < |rest| ensures Before(targets[0], rest[j]) {
        assert rest[j] in rest;
      }
    }
  }

  /** `sorted(targets)`. */
  method SortTargets(targets: set<Target>) returns (sorted: seq<Target>)
    ensures Sorted(sorted) && forall t :: t in sorted <==> t in targets
  {
    sorted := [];
    var rest := targets;
    while rest != {}
      invariant rest <= targets && Sorted(sorted)
      invariant forall t :: t in sorted <==> t in targets && t !in rest
      decreases rest
    {
      var t :| t in rest;
      PlaceSorts(t, sorted);
      sorted := Place(t, sorted);
      rest := rest - {t};
    }
  }

  /** The last day of the range: the given one, or the day before the current one. */
  function LastOfRange(dateTo: Option<int>, now: int): int {
    if dateTo.Some? then dateTo.value else DayOf(now) - 1
  }

  predicate RangeAccepted(dateFrom: Option<int>, dateTo: Option<int>, now: int) {
    var last := LastOfRange(dateTo, now);
    last <= DayOf(now) - 1 && (dateFrom.Some? ==> dateFrom.value <= last)
  }

  /** An accepted range lies in the past, which is all the theorems about runs ask of it. */
  lemma AcceptedIsPast(dateFrom: Option<int>, dateTo: Option<int>, now: int)
    requires RangeAccepted(dateFrom, dateTo, now)
    ensures now >= Midnight(LastOfRange(dateTo, now) + 1)
  {
    DayArithmetic(now, DayOf(now));
  }

  /** The command: refuse a range that is not in the past, else select, sort and rewrite. */
  method BackfillRange(table: ShiftTable, srcs: seq<Source>, dateFrom: Option<int>, dateTo: Option<int>,
                       workspace: Option<Id>, user: Option<Id>, now: int, dryRun: bool)
    returns (accepted: bool, targets: seq<Target>)
    modifies table
    ensures accepted <==> RangeAccepted(dateFrom, dateTo, now)
    ensures !accepted ==> table.rows == old(table.rows)
    ensures accepted ==> InOrder(targets, srcs, dateFrom, LastOfRange(dateTo, now), workspace, user, now)
    ensures accepted ==>
              table.rows == if dryRun then old(table.rows)
                            else RewriteAll(old(table.rows), Rebuilder(srcs, now), targets)
  {
    if !RangeAccepted(dateFrom, dateTo, now) {
      return false, [];
    }
    var selected := CollectTargets(srcs, dateFrom, LastOfRange(dateTo, now), workspace, user, now);
    targets := SortTargets(selected);
    SortedIsOrdered(targets);
    table.BackfillAll(srcs, now, targets, dryRun);
    accepted := true;
  }

  lemma AcceptedLater(dateFrom: Option<int>, dateTo: int, now: int, later: int)
    requires RangeAccepted(dateFrom, Some(dateTo), now) && now <= later
    ensures RangeAccepted(dateFrom, Some(dateTo), later)
  {
  }

  /**
   * The command given twice for the same past range, the second time at any later moment and reading the records
   * in any order. The second run changes nothing exactly when no selected worker-day ends on a midnight whose day
   * is not selected.
   */
  method BackfillRangeTwice(table: ShiftTable, srcs: seq<Source>, srcs': seq<Source>, dateFrom: Option<int>,
                            dateTo: int,
                            workspace: Option<Id>, user: Option<Id>, now: int, later: int)
    returns (once: seq<ShiftRow>)
    requires SameRecords(srcs, srcs') && now <= later && RangeAccepted(dateFrom, Some(dateTo), now)
    modifies table
    ensures multiset(table.rows) == multiset(once) <==>
              !exists t :: EndsOutside(srcs, dateFrom, dateTo, workspace, user, now, t)
    ensures exists targets ::
              && InOrder(targets, srcs, dateFrom, dateTo, workspace, user, now)
              && once == RewriteAll(old(table.rows), Rebuilder(srcs, now), targets)
  {
    AcceptedIsPast(dateFrom, Some(dateTo), now);
    AcceptedLater(dateFrom, dateTo, now, later);
    AcceptedIsPast(dateFrom, Some(dateTo), later);
    ghost var start := table.rows;
    var first, targets := BackfillRange(table, srcs, dateFrom, Some(dateTo), workspace, user, now, false);
    once := table.rows;
    var second, targets' := BackfillRange(table, srcs', dateFrom, Some(dateTo), workspace, user, later, false);
    ScriptIsIdempotent(start, srcs, srcs', dateFrom, dateTo, workspace, user, now, later, targets, targets');
  }

  // ----- two records that show the midnight cases -----

  /** One record, worked from just after midnight to exactly the next midnight. */
  function UntilMidnight(worker: Worker): Source {
    Source(1, worker.workspace, Some(worker.user), Working, None, None, 1, Some(Midnight(1)), false, true)
  }

  lemma UntilMidnightLoads(worker: Worker)
    ensures LoadDay([UntilMidnight(worker)], worker, 0) == [ToInterval(UntilMidnight(worker))]
  {
    var srcs := [UntilMidnight(worker)];
    assert Loads(srcs[0], worker, 0);
    assert srcs[1..] == [] && LoadDay(srcs[1..], worker, 0) == [];
  }

  lemma NeverOffShift(iv: Interval, w: Window, x: int)
    requires iv.state == Working
    ensures StateOf([iv], w)(x) != EndedShift
  {
  }

  lemma UntilMidnightSelects(worker: Worker, dateTo: nat, now: int, t: Target)
    ensures IsTarget([UntilMidnight(worker)], 1, None, dateTo, None, None, now, t) <==> t == Target(worker, 0)
  {
    var src := UntilMidnight(worker);
    assert FirstDay(src, None) == 0 && LastDay(src, dateTo, now) == 0;
    assert [src][0] == src;
    assert Hits(src, None, dateTo, None, None, now, t) <==> t == Target(worker, 0);
  }

  lemma UntilMidnightDangles(worker: Worker, now: int)
    ensures EndsOnMidnight(Rebuilder([UntilMidnight(worker)], now), Target(worker, 0))
  {
    var w := DayWindow(0, now);
    var iv := ToInterval(UntilMidnight(worker));
    UntilMidnightLoads(worker);
    assert Live([iv][0], w) && End([iv][0], w) == Midnight(1);
    forall x ensures StateOf([iv], w)(x) != EndedShift {
      NeverOffShift(iv, w, x);
    }
    EndsOnMidnightMeaning([UntilMidnight(worker)], now, Target(worker, 0));
  }

  /**
   * Reruns are not idempotent in general. For a record that ends exactly on midnight the run selects only
   * the day it worked, its end marker lands on the unselected next day, and a rerun adds another one.
   */
  lemma MidnightExitRepeatsMarker(worker: Worker, dateTo: nat, now: int, rows: seq<ShiftRow>)
    ensures forall t :: IsTarget([UntilMidnight(worker)], 1, None, dateTo, None, None, now, t) <==>
              t in [Target(worker, 0)]
    ensures var rebuild := Rebuilder([UntilMidnight(worker)], now);
            var once := RewriteAll(rows, rebuild, [Target(worker, 0)]);
            multiset(RewriteAll(once, rebuild, [Target(worker, 0)])) != multiset(once)
  {
    forall t
      ensures IsTarget([UntilMidnight(worker)], 1, None, dateTo, None, None, now, t) <==> t == Target(worker, 0)
    {
      UntilMidnightSelects(worker, dateTo, now, t);
    }
    UntilMidnightDangles(worker, now);
    assert Dangles(Rebuilder([UntilMidnight(worker)], now), [Target(worker, 0)], Target(worker, 0));
    BackfillIsIdempotent(rows, [UntilMidnight(worker)], [UntilMidnight(worker)], now, now, [Target(worker, 0)]);
  }

  /** One record, worked over midnight from the first day into the second. */
  function Overnight(worker: Worker): Source {
    UntilMidnight(worker).(exitedAt := Some(Midnight(1) + 5))
  }

  lemma OvernightLoads(worker: Worker, day: int)
    requires day == 0 || day == 1
    ensures LoadDay([Overnight(worker)], worker, day) == [ToInterval(Overnight(worker))]
  {
    var srcs := [Overnight(worker)];
    assert Loads(srcs[0], worker, day);
    assert srcs[1..] == [] && LoadDay(srcs[1..], worker, day) == [];
  }

  lemma OvernightSelects(worker: Worker, dateTo: int, now: int, t: Target)
    requires dateTo >= 1
    ensures IsTarget([Overnight(worker)], 1, None, dateTo, None, None, now, t) <==>
              t == Target(worker, 0) || t == Target(worker, 1)
  {
    var src := Overnight(worker);
    assert FirstDay(src, None) == 0 && LastDay(src, dateTo, now) == 1;
    assert [src][0] == src;
    assert Hits(src, None, dateTo, None, None, now, t) <==> t.worker == worker && 0 <= t.day <= 1;
  }

  lemma OvernightStates(worker: Worker, now: int)
    ensures WorksToMidnight([Overnight(worker)], now, Target(worker, 0))
    ensures !OffAtMidnight([Overnight(worker)], now, Target(worker, 1))
  {
    var iv := ToInterval(Overnight(worker));
    OvernightLoads(worker, 0);
    OvernightLoads(worker, 1);
    assert Live([iv][0], DayWindow(0, now)) && End([iv][0], DayWindow(0, now)) == Midnight(1);
    forall x ensures StateOf([iv], DayWindow(0, now))(x) != EndedShift {
      NeverOffShift(iv, DayWindow(0, now), x);
    }
    NeverOffShift(iv, DayWindow(1, now), Midnight(1));
  }

  lemma MarkerGone(rows: seq<ShiftRow>, rebuild: Target -> seq<ShiftRow>, targets: seq<Target>, t: Target)
    requires WellPlaced(rebuild) && Ordered(targets) && t in targets && NextDay(t) in targets
    requires MidnightMarker(t) !in rebuild(NextDay(t))
    ensures Count(RewriteAll(rows, rebuild, targets), MidnightMarker(t)) == 0
  {
    MarkerCount(rows, rebuild, targets, t, MidnightMarker(t));
  }

  lemma OvernightTable(srcs: seq<Source>, now: int, rows: seq<ShiftRow>, targets: seq<Target>, t: Target)
    requires Ordered(targets) && t in targets && NextDay(t) in targets
    requires WorksToMidnight(srcs, now, t) && !OffAtMidnight(srcs, now, NextDay(t))
    ensures MidnightMarker(t) in Rebuilder(srcs, now)(t)
    ensures Count(RewriteAll(rows, Rebuilder(srcs, now), targets), MidnightMarker(t)) == 0
  {
    EndsOnMidnightMeaning(srcs, now, t);
    EndRowIsMarker(srcs, now, t);
    NextHoldsMarker(srcs, now, t);
    RebuilderIsWellPlaced(srcs, now);
    MarkerGone(rows, Rebuilder(srcs, now), targets, t);
  }

  lemma OvernightMarker(worker: Worker, now: int, rows: seq<ShiftRow>, targets: seq<Target>)
    requires targets == [Target(worker, 0), Target(worker, 1)]
    requires WorksToMidnight([Overnight(worker)], now, Target(worker, 0))
    requires !OffAtMidnight([Overnight(worker)], now, Target(worker, 1))
    ensures var marker := Marker(worker, ShiftOver, Midnight(1));
            && marker in DayRecords([Overnight(worker)], now, worker, 0)
            && Count(RewriteAll(rows, Rebuilder([Overnight(worker)], now), targets), marker) == 0
  {
    OvernightTable([Overnight(worker)], now, rows, targets, Target(worker, 0));
  }

  /**
   * A shift worked over midnight: the run selects both days, the first day's rebuilt shift ends with a marker
   * on midnight, and the second day's delete removes it, so the table the run leaves has none.
   */
  lemma OvernightLosesMarker(worker: Worker, dateTo: int, now: int, rows: seq<ShiftRow>)
    requires dateTo >= 1
    ensures forall t :: IsTarget([Overnight(worker)], 1, None, dateTo, None, None, now, t) <==>
                        t in [Target(worker, 0), Target(worker, 1)]
    ensures var marker := Marker(worker, ShiftOver, Midnight(1));
            && marker in DayRecords([Overnight(worker)], now, worker, 0)
            && Count(RewriteAll(rows, Rebuilder([Overnight(worker)], now), [Target(worker, 0), Target(worker, 1)]),
                     marker) == 0
  {
    var srcs := [Overnight(worker)];
    var targets := [Target(worker, 0), Target(worker, 1)];
    forall t ensures IsTarget(srcs, 1, None, dateTo, None, None, now, t) <==> t in targets {
      OvernightSelects(worker, dateTo, now, t);
    }
    OvernightStates(worker, now);
    OvernightMarker(worker, now, rows, targets);
  }
}
