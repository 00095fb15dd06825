/** Runs of the checkpoint protocol of `GlobalLogger` in `znet/common/db.h`: checkpoints and restarts, each stopped
    after any number of page writes, and the restoring of any earlier checkpoint from the log files they leave. */
module History {
  import opened CheckpointModel
  import opened LogReplay
  import opened Recovery
  import opened Checkpoint

  /** A checkpoint that all tables were at: its time, the tables, their log file, and where the story was. */
  datatype Moment = Moment(stamp: nat, tables: seq<Table>, id: nat, file: nat, at: nat)

  datatype Under = Nothing | Shots(shots: seq<seq<LogPage>>)

  /** The program does not run, or with a logger that opened its log file, or with the one that init() makes behind a
      redo, which did not. */
  datatype Mode = Off | Ready | Reloaded

  /** The disk; the story of its log files and the checkpoints so far; the one under way; the clock, and whether it has
      moved on at every reading. */
  datatype State = State(m: Media, st: Story, past: seq<Moment>, under: Under, mode: Mode, clock: nat, timely: bool)

  // ---------- the checkpoints so far ----------

  ghost predicate Stood(mo: Moment, st: Story, base: seq<Table>) {
    && mo.file < |st.ids| && st.ids[mo.file] == mo.id && |st.starts| == |st.ids| + 1
    && st.starts[mo.file] <= mo.at <= st.starts[mo.file + 1]
    && Parts(st.recs, mo.at, mo.stamp) && mo.tables == Before(base, st.recs, mo.stamp + 1)
  }

  ghost predicate AllStood(past: seq<Moment>, st: Story, base: seq<Table>) {
    forall k {:trigger past[k]} | 0 <= k < |past| :: Stood(past[k], st, base)
  }

  /** The record of a moment is in its log file. */
  ghost predicate Marked(mo: Moment, st: Story) {
    && mo.file < |st.ids| == |st.starts| - 1 && st.starts[mo.file] < mo.at <= |st.recs|
    && st.recs[mo.at - 1].result == Commit && st.recs[mo.at - 1].stamp == mo.stamp
  }

  ghost predicate AllMarked(past: seq<Moment>, st: Story) {
    forall k {:trigger past[k]} | 0 < k < |past| :: Marked(past[k], st)
  }

  ghost predicate Rising(past: seq<Moment>) {
    forall j, k {:trigger past[j], past[k]} | 0 <= j < k < |past| :: past[j].stamp < past[k].stamp
  }

  ghost predicate Among(past: seq<Moment>, stamp: nat) {
    exists k :: 0 <= k < |past| && past[k].stamp == stamp
  }

  /** Every checkpoint that was committed from the first moment on is among the moments. */
  ghost predicate Complete(past: seq<Moment>, recs: seq<Rec>) {
    && |past| > 0
    && forall j {:trigger recs[j]} | past[0].at <= j < |recs| && recs[j].result == Commit :: Among(past, recs[j].stamp)
  }

  ghost predicate Recorded(past: seq<Moment>, st: Story, base: seq<Table>) {
    && |past| > 0 && AllStood(past, st, base) && AllMarked(past, st) && Rising(past) && Complete(past, st.recs)
    && past[|past| - 1].stamp == DateOf(st.recs) && Timely(st.recs)
  }

  /** The moment that a new record makes. */
  ghost function NextMoment(st: Story, tables: seq<Table>, rec: Rec): Moment
    requires |tables| == |rec.shots|
  {
    Moment(rec.stamp, News(tables, rec.shots), Last(st), if |st.ids| > 0 then |st.ids| - 1 else 0, |st.recs|)
  }

  lemma StoodTold(mo: Moment, st: Story, base: seq<Table>, rec: Rec)
    requires Stood(mo, st, base) && st.starts[|st.ids|] == |st.recs|
    requires if rec.result == Commit then rec.stamp > mo.stamp else rec.stamp == 0
    ensures Stood(mo, Told(st, rec), base)
  {
    var z := Told(st, rec).recs;
    assert z[..|z| - 1] == st.recs;
    forall k {:trigger z[k]} | 0 <= k < mo.at
      ensures z[k].stamp <= mo.stamp
    {
      assert z[k] == st.recs[k];
    }
    forall k {:trigger z[k]} | mo.at <= k < |z| && z[k].result == Commit
      ensures z[k].stamp > mo.stamp
    {
      if k < |st.recs| { assert z[k] == st.recs[k]; }
    }
  }

  lemma StoodMoved(mo: Moment, st: Story, base: seq<Table>, L: nat, cut: bool)
    requires Stood(mo, st, base) && Shape(st)
    ensures Stood(mo, Moved(st, L, cut), base)
  {
    hide Parts, Before;
  }

  lemma MarkedTold(mo: Moment, st: Story, rec: Rec)
    requires Marked(mo, st)
    ensures Marked(mo, Told(st, rec))
  {
  }

  lemma MarkedMoved(mo: Moment, st: Story, L: nat, cut: bool)
    requires Marked(mo, st)
    ensures Marked(mo, Moved(st, L, cut))
  {
  }

  lemma CompleteMore(past: seq<Moment>, recs: seq<Rec>, rec: Rec, mo: Moment)
    requires Complete(past, recs) && rec.result == Commit && mo.stamp == rec.stamp
    ensures Complete(past + [mo], recs + [rec])
  {
    var z, p := recs + [rec], past + [mo];
    forall j {:trigger z[j]} | p[0].at <= j < |z| && z[j].result == Commit
      ensures Among(p, z[j].stamp)
    {
      if j == |recs| {
        assert p[|past|].stamp == z[j].stamp;
      } else {
        assert z[j] == recs[j];
        var k :| 0 <= k < |past| && past[k].stamp == recs[j].stamp;
        assert p[k].stamp == z[j].stamp;
      }
    }
  }

  lemma CompleteSame(past: seq<Moment>, recs: seq<Rec>, rec: Rec)
    requires Complete(past, recs) && rec.result != Commit
    ensures Complete(past, recs + [rec])
  {
    var z := recs + [rec];
    forall j {:trigger z[j]} | past[0].at <= j < |z| && z[j].result == Commit
      ensures Among(past, z[j].stamp)
    {
      assert z[j] == recs[j];
    }
  }

  /** An aborted record changes nothing. */
  lemma PastAborts(past: seq<Moment>, st: Story, base: seq<Table>, n: nat)
    requires Recorded(past, st, base) && Shape(st) && Formed(st.recs, n)
    ensures Recorded(past, Aborted(st), base)
  {
    var rec := Rec(0, Abort, []);
    hide Stood, Marked, Timely, Formed, DateOf, Rising, Complete;
    FormedMore(st.recs, n, rec);
    TimelyMore(st.recs, rec);
    CompleteSame(past, st.recs, rec);
    forall k {:trigger past[k]} | 0 <= k < |past|
      ensures Stood(past[k], Aborted(st), base)
    {
      StoodTold(past[k], st, base, rec);
    }
    forall k {:trigger past[k]} | 0 < k < |past|
      ensures Marked(past[k], Aborted(st))
    {
      MarkedTold(past[k], st, rec);
    }
  }

  lemma AllBefore(recs: seq<Rec>, n: nat)
    requires Ordered(recs, n)
    ensures Parts(recs, |recs|, DateOf(recs))
  {
    forall k {:trigger recs[k]} | 0 <= k < |recs|
      ensures recs[k].stamp <= DateOf(recs)
    {
      if recs[k].result == Commit { DateTop(recs, k); }
    }
  }

  /** What stood at the last checkpoint, and the new record. */
  lemma BeforeNew(base: seq<Table>, recs: seq<Rec>, n: nat, rec: Rec)
    requires Ordered(recs, n) && rec.result == Commit && rec.stamp > DateOf(recs) && |rec.shots| == |base|
    ensures |Before(base, recs, DateOf(recs) + 1)| == |base|
    ensures Before(base, recs + [rec], rec.stamp + 1) == News(Before(base, recs, DateOf(recs) + 1), rec.shots)
  {
    AllBefore(recs, n);
    hide Ordered, DateOf, News;
    assert (recs + [rec])[..|recs|] == recs;
    SameBounds(base, recs, DateOf(recs) + 1, rec.stamp + 1);
    BeforeSize(base, recs, DateOf(recs) + 1);
  }

  /** The tables of the last moment, and of the new one. */
  lemma TopStands(past: seq<Moment>, st: Story, base: seq<Table>, n: nat, rec: Rec)
    requires Recorded(past, st, base) && Formed(st.recs, n) && |base| == n == |rec.shots|
    requires rec.result == Commit && rec.stamp > DateOf(st.recs)
    ensures |past[|past| - 1].tables| == n
    ensures News(past[|past| - 1].tables, rec.shots) == Before(base, st.recs + [rec], rec.stamp + 1)
  {
    hide Rising, Complete, AllMarked, News, Before, DateOf, Parts, Timely, Formed;
    assert Stood(past[|past| - 1], st, base);
    assert Ordered(st.recs, n);
    BeforeNew(base, st.recs, n, rec);
  }

  /** The new record is the last in time. */
  lemma NewTimes(recs: seq<Rec>, n: nat, rec: Rec)
    requires Ordered(recs, n) && rec.result == Commit && rec.stamp > DateOf(recs) && ShotsFit(rec.shots, n)
    ensures Ordered(recs + [rec], n) && DateOf(recs + [rec]) == rec.stamp
    ensures Parts(recs + [rec], |recs| + 1, rec.stamp)
  {
    hide Timely, Formed, DateOf, Parts, ShotsFit;
    FormedMore(recs, n, rec);
    TimelyMore(recs, rec);
    AllBefore(recs + [rec], n);
  }

  lemma NewStood(st: Story, base: seq<Table>, L: nat, cut: bool, rec: Rec, mo: Moment)
    requires Shape(st) && rec.result == Commit && mo.stamp == rec.stamp && mo.at == |st.recs| + 1
    requires mo.id == Last(Grown(st, L, cut, rec)) && mo.file == |Grown(st, L, cut, rec).ids| - 1
    requires Parts(st.recs + [rec], |st.recs| + 1, rec.stamp)
    requires mo.tables == Before(base, st.recs + [rec], rec.stamp + 1)
    ensures Stood(mo, Grown(st, L, cut, rec), base) && Marked(mo, Grown(st, L, cut, rec))
  {
    hide Before, Parts;
    assert st.starts[|st.ids| - 1] <= st.starts[|st.ids|];
  }

  lemma StillStood(st: Story, L: nat, cut: bool, mo: Moment, base: seq<Table>, rec: Rec)
    requires Stood(mo, st, base) && Shape(st) && rec.result == Commit && rec.stamp > mo.stamp
    ensures Stood(mo, Grown(st, L, cut, rec), base)
  {
    StoodMoved(mo, st, base, L, cut);
    hide Parts, Before;
    StoodTold(mo, Moved(st, L, cut), base, rec);
  }

  /** The moments so far stand in the longer story too. */
  lemma OthersStand(past: seq<Moment>, st: Story, base: seq<Table>, L: nat, cut: bool, rec: Rec, mo: Moment)
    requires |past| > 0 && AllStood(past, st, base) && AllMarked(past, st) && Rising(past) && Shape(st)
    requires rec.result == Commit && rec.stamp > past[|past| - 1].stamp && mo.stamp == rec.stamp
    requires Stood(mo, Grown(st, L, cut, rec), base) && Marked(mo, Grown(st, L, cut, rec))
    ensures var (p, now) := (past + [mo], Grown(st, L, cut, rec));
            AllStood(p, now, base) && AllMarked(p, now) && Rising(p)
  {
    hide Stood, Marked, Grown;
    var p, now := past + [mo], Grown(st, L, cut, rec);
    forall k {:trigger past[k]} | 0 <= k < |past|
      ensures Stood(past[k], now, base) && (k > 0 ==> Marked(past[k], now))
    {
      assert past[k].stamp <= past[|past| - 1].stamp;
      StillStood(st, L, cut, past[k], base, rec);
      if k > 0 { StillMarked(st, L, cut, past[k], rec); }
    }
  }

  lemma StillMarked(st: Story, L: nat, cut: bool, mo: Moment, rec: Rec)
    requires Marked(mo, st)
    ensures Marked(mo, Grown(st, L, cut, rec))
  {
    hide Marked;
    assert |st.starts| == |st.ids| + 1 by { MarkedShape(mo, st); }
    MarkedMoved(mo, st, L, cut);
    MarkedTold(mo, Moved(st, L, cut), rec);
  }

  lemma MarkedShape(mo: Moment, st: Story)
    requires Marked(mo, st)
    ensures |st.starts| == |st.ids| + 1
  {
  }

  /** A committed record makes a new moment. */
  lemma PastGrows(past: seq<Moment>, st: Story, base: seq<Table>, n: nat, L: nat, cut: bool, rec: Rec)
    requires Recorded(past, st, base) && Shape(st) && Formed(st.recs, n) && |base| == n
    requires rec.result == Commit && rec.stamp > DateOf(st.recs) && ShotsFit(rec.shots, n)
    ensures |past[|past| - 1].tables| == n == |rec.shots|
    ensures var now := Grown(st, L, cut, rec);
            Recorded(past + [NextMoment(now, past[|past| - 1].tables, rec)], now, base)
  {
    assert |rec.shots| == n && |st.starts| == |st.ids| + 1 && |st.ids| > 0;
    hide Timely, Formed, DateOf, Complete, Before, ShotsFit, Parts, News, Stood, Marked, Rising, AllStood, AllMarked,
      Shape, Grown;
    TopStands(past, st, base, n, rec);
    assert Ordered(st.recs, n);
    NewTimes(st.recs, n, rec);
    GrownRecs(st, L, cut, rec);
    var mo := NextMoment(Grown(st, L, cut, rec), past[|past| - 1].tables, rec);
    CompleteMore(past, st.recs, rec, mo);
    GrownFiles(st, L, cut, rec);
    NewStood(st, base, L, cut, rec, mo);
    OthersStand(past, st, base, L, cut, rec, mo);
  }

  lemma GrownRecs(st: Story, L: nat, cut: bool, rec: Rec)
    requires |st.starts| == |st.ids| + 1
    ensures Grown(st, L, cut, rec).recs == st.recs + [rec]
  {
  }

  lemma GrownFiles(st: Story, L: nat, cut: bool, rec: Rec)
    requires |st.starts| == |st.ids| + 1 && |st.ids| > 0
    ensures |Grown(st, L, cut, rec).ids| > 0
  {
  }

  // ---------- restoring an earlier checkpoint ----------

  /** The last moment before time t, or moment k if that is not later. */
  function Latest(past: seq<Moment>, k: nat, t: nat): (r: nat)
    requires k < |past|
    ensures k <= r < |past|
  {
    var top := |past| - 1;
    if top <= k || past[top].stamp < t then top else Latest(past[..top], k, t)
  }

  lemma {:induction false} LatestIs(past: seq<Moment>, k: nat, t: nat)
    requires k < |past|
    ensures var r := Latest(past, k, t);
            && (r > k ==> past[r].stamp < t)
            && forall i {:trigger past[i]} | r < i < |past| :: past[i].stamp >= t
    decreases |past|
  {
    var top := |past| - 1;
    if !(top <= k || past[top].stamp < t) {
      LatestIs(past[..top], k, t);
      var r := Latest(past[..top], k, t);
      forall i {:trigger past[i]} | r < i < |past|
        ensures past[i].stamp >= t
      {
        if i < top { assert past[..top][i] == past[i]; }
      }
    }
  }

  /** The last moment before time t whose log file the chain from that of moment k on leads to, up to file e; or
      moment k. */
  function Reach(past: seq<Moment>, k: nat, t: nat, e: nat): (r: nat)
    requires k < |past|
    ensures k <= r < |past|
  {
    var top := |past| - 1;
    if top <= k || (past[top].stamp < t && past[top].file <= e) then top else Reach(past[..top], k, t, e)
  }

  lemma {:induction false} ReachIs(past: seq<Moment>, k: nat, t: nat, e: nat)
    requires k < |past|
    ensures var r := Reach(past, k, t, e);
            && (r > k ==> past[r].stamp < t && past[r].file <= e)
            && forall i {:trigger past[i]} | r < i < |past| :: past[i].stamp >= t || past[i].file > e
    decreases |past|
  {
    var top := |past| - 1;
    if !(top <= k || (past[top].stamp < t && past[top].file <= e)) {
      ReachIs(past[..top], k, t, e);
      var r := Reach(past[..top], k, t, e);
      forall i {:trigger past[i]} | r < i < |past|
        ensures past[i].stamp >= t || past[i].file > e
      {
        if i < top { assert past[..top][i] == past[i]; }
      }
    }
  }

  lemma EndReaches(st: Story, f: nat, g: nat)
    requires f < |st.ids| == |st.cuts| && f <= g < |st.ids|
    ensures g <= End(st, f) <==> Uncut(st, f, g)
  {
    var e := End(st, f);
    assert Uncut(st, f, e);
    if g > e { assert st.cuts[e + 1]; }
  }

  lemma FileOrder(st: Story, mo: Moment, later: Moment, base: seq<Table>)
    requires Shape(st) && Stood(mo, st, base) && Stood(later, st, base) && mo.at < later.at
    ensures mo.file <= later.file
  {
    hide Parts, Before;
  }

  /** Moments follow each other through the log files. */
  lemma FilesRise(past: seq<Moment>, st: Story, base: seq<Table>, k: nat, r: nat)
    requires Recorded(past, st, base) && Shape(st) && k <= r < |past|
    ensures past[k].file <= past[r].file < |st.ids|
  {
    StoodAt(past, st, base, k);
    StoodAt(past, st, base, r);
    if k < r {
      RecordBehind(past, st, base, k, r);
      hide Recorded, Stood, Shape;
      FileOrder(st, past[k], past[r], base);
    }
  }

  /** The record of a later moment lies behind an earlier one. */
  lemma RecordBehind(past: seq<Moment>, st: Story, base: seq<Table>, k: nat, r: nat)
    requires Recorded(past, st, base) && k < r < |past| && Stood(past[k], st, base)
    ensures past[k].at < past[r].at
  {
    hide Before, Complete, AllStood, Timely, Parts;
    assert Marked(past[r], st) && past[k].stamp < past[r].stamp;
    PartsAt(st.recs, past[k].at, past[k].stamp, past[r].at - 1);
  }

  /** The replay reaches the last moment before t exactly if no log file between those of the two moments was begun
      without a chain. */
  lemma ReachIff(past: seq<Moment>, st: Story, base: seq<Table>, k: nat, t: nat)
    requires Recorded(past, st, base) && Shape(st) && k < |past|
    ensures past[k].file <= past[Latest(past, k, t)].file < |st.ids| == |st.cuts|
    ensures Reach(past, k, t, End(st, past[k].file)) == Latest(past, k, t) <==>
            Uncut(st, past[k].file, past[Latest(past, k, t)].file)
  {
    FilesRise(past, st, base, k, Latest(past, k, t));
    var l, e := Latest(past, k, t), End(st, past[k].file);
    hide Recorded, Latest, Reach, Uncut, End, Shape;
    LatestIs(past, k, t);
    ReachIs(past, k, t, e);
    EndReaches(st, past[k].file, past[l].file);
  }

  /** A moment that names a record has its place in the story. */
  lemma MarkedAt(past: seq<Moment>, st: Story, i: nat, j: nat, e: nat)
    requires AllMarked(past, st) && Timely(st.recs) && Shape(st) && 0 < i < |past| && e < |st.ids|
    requires j < st.starts[e + 1] <= |st.recs| && st.recs[j].result == Commit && st.recs[j].stamp == past[i].stamp
    ensures past[i].file <= e
  {
    assert Marked(past[i], st);
    OneTime(st.recs, past[i].at - 1, j);
  }

  lemma OneTime(recs: seq<Rec>, p: nat, j: nat)
    requires Timely(recs) && p < |recs| && j < |recs| && recs[p].stamp == recs[j].stamp
    requires recs[p].result == recs[j].result == Commit
    ensures p == j
  {
  }

  /** A record of the files up to e that is later than the moment which the replay reaches. */
  lemma BehindReach(past: seq<Moment>, st: Story, base: seq<Table>, k: nat, t: nat, e: nat, j: nat)
    requires Recorded(past, st, base) && Shape(st) && k < |past| && e < |st.ids|
    requires j < st.starts[e + 1] <= |st.recs| && st.recs[j].result == Commit
    requires st.recs[j].stamp > past[Reach(past, k, t, e)].stamp
    ensures st.recs[j].stamp >= t
  {
    assert Rising(past) && AllMarked(past, st) && Timely(st.recs);
    hide Reach, Shape, AllStood, AllMarked, Timely;
    var r := Reach(past, k, t, e);
    assert r > 0 ==> past[0].stamp < past[r].stamp;
    FirstRecords(past, st, base, j);
    assert Among(past, st.recs[j].stamp);
    hide Complete, Recorded, Rising;
    var i: nat :| i < |past| && past[i].stamp == st.recs[j].stamp;
    Later(past, i, r);
    MarkedAt(past, st, i, j, e);
    ReachIs(past, k, t, e);
  }

  lemma ReachBehind(past: seq<Moment>, k: nat, t: nat, e: nat)
    requires Rising(past) && k < |past|
    ensures var r := Reach(past, k, t, e); past[k].stamp <= past[r].stamp < Bound(past[k].stamp, t)
  {
    ReachIs(past, k, t, e);
    hide Reach;
  }

  /** Which records of the files up to e a bound takes in, told by the moments. */
  lemma BoundIs(past: seq<Moment>, st: Story, base: seq<Table>, k: nat, t: nat, e: nat, j: nat)
    requires Recorded(past, st, base) && Shape(st) && k < |past| && e < |st.ids|
    requires j < st.starts[e + 1] <= |st.recs| && st.recs[j].result == Commit
    ensures st.recs[j].stamp < Bound(past[k].stamp, t) <==>
            st.recs[j].stamp < past[Reach(past, k, t, e)].stamp + 1
  {
    ReachBehind(past, k, t, e);
    hide Reach, Shape, Recorded;
    if st.recs[j].stamp > past[Reach(past, k, t, e)].stamp { BehindReach(past, st, base, k, t, e, j); }
  }

  lemma Later(past: seq<Moment>, i: nat, r: nat)
    requires Rising(past) && i < |past| && r < |past| && past[i].stamp > past[r].stamp
    ensures i > r
  {
  }

  lemma FirstRecords(past: seq<Moment>, st: Story, base: seq<Table>, j: nat)
    requires Recorded(past, st, base) && j < |st.recs| && st.recs[j].stamp > past[0].stamp
    ensures j >= past[0].at
  {
    hide Before, Complete, Rising, AllMarked, Timely;
    assert Stood(past[0], st, base);
    PartsAt(st.recs, past[0].at, past[0].stamp, j);
  }

  lemma PartsAt(recs: seq<Rec>, p: nat, last: nat, j: nat)
    requires Parts(recs, p, last) && j < |recs| && recs[j].stamp > last
    ensures j >= p
  {
  }

  /** A moment in the story up to file e. */
  lemma StoodUntil(mo: Moment, st: Story, base: seq<Table>, e: nat)
    requires Stood(mo, st, base) && Shape(st) && mo.file <= e < |st.ids|
    ensures Stood(mo, Until(st, e), base)
  {
    UntilShape(st, e);
    var z := Until(st, e);
    var c := st.starts[e + 1];
    assert st.starts[mo.file + 1] <= c;
    hide Before;
    Rest(base, st.recs, c, mo.stamp + 1);
    forall k {:trigger z.recs[k]} | 0 <= k < mo.at
      ensures z.recs[k].stamp <= mo.stamp
    {
      assert z.recs[k] == st.recs[k];
    }
    forall k {:trigger z.recs[k]} | mo.at <= k < |z.recs| && z.recs[k].result == Commit
      ensures z.recs[k].stamp > mo.stamp
    {
      assert z.recs[k] == st.recs[k];
    }
  }

  /** Two bounds take in the same records. */
  ghost predicate BoundsAgree(recs: seq<Rec>, a: nat, b: nat) {
    forall j {:trigger recs[j]} | 0 <= j < |recs| && recs[j].result == Commit ::
      recs[j].stamp < a <==> recs[j].stamp < b
  }

  lemma BoundsUntil(past: seq<Moment>, st: Story, base: seq<Table>, k: nat, t: nat, e: nat)
    requires Recorded(past, st, base) && Shape(st) && k < |past| && e < |st.ids|
    ensures BoundsAgree(Until(st, e).recs, Bound(past[k].stamp, t), past[Reach(past, k, t, e)].stamp + 1)
  {
    hide Recorded, Reach, Bound;
    UntilShape(st, e);
    var recs := Until(st, e).recs;
    forall j {:trigger recs[j]} | 0 <= j < |recs| && recs[j].result == Commit
      ensures recs[j].stamp < Bound(past[k].stamp, t) <==> recs[j].stamp < past[Reach(past, k, t, e)].stamp + 1
    {
      assert recs[j] == st.recs[j];
      BoundIs(past, st, base, k, t, e, j);
    }
  }

  lemma StoodAt(past: seq<Moment>, st: Story, base: seq<Table>, r: nat)
    requires Recorded(past, st, base) && r < |past|
    ensures Stood(past[r], st, base)
  {
    hide Stood, Rising, AllMarked, Complete, Timely;
  }

  lemma StoodTables(mo: Moment, st: Story, base: seq<Table>)
    requires Stood(mo, st, base)
    ensures mo.tables == Before(base, st.recs, mo.stamp + 1)
  {
  }

  /** Replaying the records before t in the files up to e gives the last moment before t that lies in them. */
  lemma ReachTables(past: seq<Moment>, st: Story, base: seq<Table>, k: nat, t: nat, e: nat)
    requires Recorded(past, st, base) && Shape(st) && k < |past| && past[k].file <= e < |st.ids|
    ensures Before(base, Until(st, e).recs, Bound(past[k].stamp, t)) ==
            past[Reach(past, k, t, e)].tables
  {
    hide Recorded, Reach, Before, Stood, Shape, Until;
    ReachIs(past, k, t, e);
    var r := Reach(past, k, t, e);
    StoodAt(past, st, base, r);
    StoodUntil(past[r], st, base, e);
    StoodTables(past[r], Until(st, e), base);
    BoundsUntil(past, st, base, k, t, e);
    SameBounds(base, Until(st, e).recs, Bound(past[k].stamp, t), past[r].stamp + 1);
  }

  /** Replaying all records before t gives the last moment before t. */
  lemma LatestTables(past: seq<Moment>, st: Story, base: seq<Table>, k: nat, t: nat)
    requires Recorded(past, st, base) && Shape(st) && k < |past|
    ensures Before(base, st.recs, Bound(past[k].stamp, t)) ==
            past[Latest(past, k, t)].tables
  {
    var e, r := |st.ids| - 1, Latest(past, k, t);
    LatestIs(past, k, t);
    ReachIs(past, k, t, e);
    assert Until(st, e).recs == st.recs;
    forall i | 0 <= i < |past|
      ensures past[i].file <= e
    {
      assert Stood(past[i], st, base);
    }
    ReachTables(past, st, base, k, t, e);
    hide Complete, Rising, Reach, Latest, Before, AllMarked, Timely, AllStood, Recorded, Until, Shape;
    assert Reach(past, k, t, e) == r;
  }

  /** restore(t), started on the table files of some earlier moment with the log files of today, gives the tables of the
      last checkpoint before t that the chain of log files leads to. */
  method RestoreMoment(disk: Disk, recMax: nat, rotatePages: nat, t: nat, ghost past: seq<Moment>, ghost st: Story,
      ghost base: seq<Table>, ghost k: nat)
    returns (ok: bool, times: seq<nat>, ghost pos: nat)
    requires Recorded(past, st, base) && Chron(disk.m.logs, |base|, st) && Apart(disk.m.logs, st)
    requires k < |past| && |base| > 0 && 0 < recMax <= KEYROOM
    requires StandAt(disk.m.files, past[k].id, past[k].stamp, past[k].tables)
    modifies disk
    ensures disk.m.logs == old(disk.m.logs) && past[k].file < |st.ids| == |st.cuts| && Shape(st)
    ensures disk.budget > 0 ==>
              TablesAre(disk.m.files, past[Reach(past, k, t, End(st, past[k].file))].tables)
    ensures times == Times(Until(st, End(st, past[k].file)).recs, past[k].stamp,
                Bound(past[k].stamp, t))
    ensures var z := Until(st, End(st, past[k].file));
            StopsAt(z.recs, past[k].stamp, t, pos) && (ok <==> pos < |z.recs| || !Lost(disk.m, z))
  {
    hide Recorded, Chron, ReadChain, Before, Times, Reach, Stands, StandAt, Until, End, Shape, Timely, Apart, Bound,
      TablesAre, StopsAt, Lost;
    ghost var e, z := CopyReady(disk.m, past, st, base, k, t);
    ok, times, pos := RestoreFiles(disk, recMax, rotatePages, t, z, base, past[k].file, past[k].at, past[k].stamp);
  }

  /** restore(t), started on table files that stand in file f of a story that can be read from there on. */
  method RestoreFiles(disk: Disk, recMax: nat, rotatePages: nat, t: nat, ghost st: Story, ghost base: seq<Table>,
      ghost f: nat, ghost p: nat, ghost last: nat)
    returns (ok: bool, times: seq<nat>, ghost pos: nat)
    requires ReadChain(disk.m.logs, |base|, st, f) && Timely(st.recs) && |disk.m.files| == |base| > 0
    requires f < |st.ids| == |st.starts| - 1 && st.ids[f] in disk.m.logs && 0 < recMax <= KEYROOM
    requires st.starts[f] + disk.m.logs[st.ids[f]].key.cur == st.starts[f + 1] <= |st.recs|
    requires disk.m.files[0].check == last && disk.m.files[0].id == st.ids[f]
    requires Stands(disk.m.files, st, base, f, p, last)
    modifies disk
    ensures disk.m.logs == old(disk.m.logs)
    ensures disk.budget > 0 ==> TablesAre(disk.m.files, Before(base, st.recs, Bound(last, t)))
    ensures times == Times(st.recs, last, Bound(last, t))
    ensures StopsAt(st.recs, last, t, pos) && (ok <==> pos < |st.recs| || !Lost(disk.m, st))
  {
    hide ReadChain, Before, Times, Stands, Timely, Bound, TablesAre, StopsAt, Lost;
    var logger := new GlobalLogger(disk, |disk.m.files|, recMax, rotatePages, 0, EMPTY);
    ghost var h, q, d;
    ok := logger.LoadLogFile(disk.m.files[0].id);
    ok, times, h, q, d, pos := logger.Restore(t, st, base, f, p);
    if disk.budget > 0 { StandTables(disk.m.files, st, base, h, q, d); }
  }

  /** The copied table files stand in what can be read from their log file on. */
  lemma CopyStands(m: Media, past: seq<Moment>, st: Story, base: seq<Table>, k: nat) returns (e: nat, z: Story)
    requires Recorded(past, st, base) && Chron(m.logs, |base|, st) && Apart(m.logs, st) && k < |past| && |base| > 0
    requires StandAt(m.files, past[k].id, past[k].stamp, past[k].tables)
    ensures Shape(st) && past[k].file < |st.ids| == |st.cuts| && e == End(st, past[k].file) && z == Until(st, e)
    ensures ReadChain(m.logs, |base|, z, past[k].file) && Timely(z.recs) && Last(z) == st.ids[e]
    ensures |m.files| == |base| && m.files[0].check == past[k].stamp && m.files[0].id == z.ids[past[k].file]
    ensures past[k].file < |z.ids| == |z.starts| - 1
    ensures Stands(m.files, z, base, past[k].file, past[k].at, past[k].stamp)
  {
    StoodAt(past, st, base, k);
    assert Shape(st) && Timely(st.recs) && past[k].file < |st.ids|;
    e := End(st, past[k].file);
    z := Until(st, e);
    hide Recorded, Chron, ReadChain, Before, StandAt, Timely, Apart, Parts;
    UntilReads(m.logs, |base|, st, past[k].file);
    UntilShape(st, e);
    TimelyFront(st.recs, st.starts[e + 1]);
    StoodUntil(past[k], st, base, e);
    hide Shape, End;
    StoodStands(m, past[k], z, base);
  }

  lemma StoodStands(m: Media, mo: Moment, st: Story, base: seq<Table>)
    requires Stood(mo, st, base) && |base| > 0 && StandAt(m.files, mo.id, mo.stamp, mo.tables)
    ensures mo.file < |st.ids| == |st.starts| - 1 && Stands(m.files, st, base, mo.file, mo.at, mo.stamp)
    ensures |m.files| == |base| && m.files[0].check == mo.stamp && m.files[0].id == st.ids[mo.file]
  {
    hide Before, Parts;
    BeforeSize(base, st.recs, mo.stamp + 1);
    assert m.files[0] == File(mo.tables[0], mo.id, mo.stamp);
  }

  /** The same, and what the replay will give. */
  lemma CopyReady(m: Media, past: seq<Moment>, st: Story, base: seq<Table>, k: nat, t: nat) returns (e: nat, z: Story)
    requires Recorded(past, st, base) && Chron(m.logs, |base|, st) && Apart(m.logs, st) && k < |past| && |base| > 0
    requires StandAt(m.files, past[k].id, past[k].stamp, past[k].tables)
    ensures Shape(st) && past[k].file < |st.ids| == |st.cuts| && e == End(st, past[k].file) && z == Until(st, e)
    ensures ReadChain(m.logs, |base|, z, past[k].file) && Timely(z.recs) && Last(z) == st.ids[e]
    ensures |m.files| == |base| && m.files[0].check == past[k].stamp && m.files[0].id == z.ids[past[k].file]
    ensures past[k].file < |z.ids| == |z.starts| - 1
    ensures Stands(m.files, z, base, past[k].file, past[k].at, past[k].stamp)
    ensures z.ids[past[k].file] in m.logs && z.starts[past[k].file + 1] <= |z.recs|
    ensures z.starts[past[k].file] + m.logs[z.ids[past[k].file]].key.cur == z.starts[past[k].file + 1]
    ensures Before(base, z.recs, Bound(past[k].stamp, t)) ==
            past[Reach(past, k, t, e)].tables
  {
    hide Recorded, Chron, ReadChain, Before, Reach, Stands, StandAt, Until, End, Shape, Timely, Apart;
    e, z := CopyStands(m, past, st, base, k);
    NextFile(m.logs, |base|, z, past[k].file, past[k].file);
    ReachTables(past, st, base, k, t, e);
  }

  /** What the table files hold. */
  ghost predicate TablesAre(files: seq<File>, tables: seq<Table>) {
    |files| == |tables| && forall i {:trigger files[i]} | 0 <= i < |files| :: files[i].table == tables[i]
  }

  lemma StandTables(files: seq<File>, st: Story, base: seq<Table>, h: nat, q: nat, d: nat)
    requires Stands(files, st, base, h, q, d)
    ensures TablesAre(files, Before(base, st.recs, d + 1))
  {
  }

  // ---------- runs ----------

  /** The machine is switched on: the time, the number of page writes until it stops, what stands behind the key page,
      and, for the logger that init() makes behind a redo, its time and what its key page holds.  Or a checkpoint is
      made, with the time of a rotation and the time of the commit. */
  datatype Action =
    | Boot(budget: nat, time: nat, behind: Item, load: nat, page: Key)
    | Check(shots: seq<seq<LogPage>>, rotate: bool, now: nat, stamp: nat)

  function Begin(a: Action): nat { if a.Boot? then a.time else a.now }

  function Finish(a: Action): nat { if a.Boot? then a.load else a.stamp }

  /** Every reading of the clock is later than the one before; the two of one restart may be the same. */
  ghost predicate Clocked(script: seq<Action>, clock: nat) {
    forall k {:trigger script[k]} | 0 <= k < |script| ::
      InOrder(script[k]) && (if k == 0 then clock else Finish(script[k - 1])) < Begin(script[k])
  }

  predicate InOrder(a: Action) {
    if a.Boot? then a.time <= a.load else a.now < a.stamp
  }

  ghost predicate Within(files: seq<File>, clock: nat) {
    forall i {:trigger files[i]} | 0 <= i < |files| :: files[i].id <= clock && files[i].check <= clock
  }

  /** No log file names one that is later than the clock. */
  ghost predicate ChainsWithin(logs: map<nat, Log>, clock: nat) {
    forall t {:trigger logs[t]} | t in logs :: logs[t].key.chain <= clock
  }

  /** A log file that a table names in front of the story is not older than the one that the story names. */
  ghost predicate Ahead(m: Media, st: Story) {
    forall i {:trigger m.files[i]} | 0 <= i < |m.files| && m.files[i].id > Last(st) ::
      LogAt(m, Last(st)).key.chain <= m.files[i].id
  }

  /** What the log files name. */
  ghost predicate Naming(m: Media, st: Story, clock: nat) {
    ChainsWithin(m.logs, clock) && Apart(m.logs, st) && Ahead(m, st)
  }

  /** The tables at the last checkpoint. */
  function Current(s: State): seq<Table> { if s.past == [] then [] else s.past[|s.past| - 1].tables }

  /** As long as the clock moves on: the log files tell the checkpoints so far. */
  ghost predicate Chronicled(s: State, base: seq<Table>) {
    && Recorded(s.past, s.st, base) && Within(s.m.files, s.clock) && DateOf(s.st.recs) <= s.clock
    && s.past[|s.past| - 1].id == Last(s.st) && Naming(s.m, s.st, s.clock)
  }

  /** The invariant of runs: all tables are at the last checkpoint, or can be brought there or to the one under way. */
  ghost predicate Sound(s: State, base: seq<Table>) {
    && |s.past| > 0 && |Current(s)| == |base| && (s.timely ==> Chronicled(s, base))
    && match s.under
       case Nothing => Rests(s.m, s.st, Current(s))
       case Shots(shots) =>
         s.mode == Off && ShotsFit(shots, |base|) && Recoverable(s.m, s.st, Current(s), shots, s.timely)
  }

  /** A new checkpoint behind those so far. */
  ghost predicate OneMore(s: State, shots: seq<seq<LogPage>>, now: State) {
    && |now.past| == |s.past| + 1 && now.past[..|s.past|] == s.past
    && |Current(s)| == |shots| && Current(now) == News(Current(s), shots)
  }

  /** Whether the clock has moved on up to and in this action. */
  predicate Steady(s: State, a: Action) {
    s.timely && s.clock < Begin(a) && InOrder(a)
  }

  /** The log files of the story, and how the last of them was begun if it is a new one. */
  ghost predicate Joins(was: Story, now: Story, cut: bool) {
    (now.ids == was.ids && now.cuts == was.cuts) || (|now.ids| == |was.ids| + 1 && now.cuts == was.cuts + [cut])
  }

  /** What an action does.  A restart that ends leaves all tables at the last checkpoint or all at the one under way.
      After a redo the program goes on without an open log file: with a clock that moves on, the next checkpoint is in
      a new log file that no other one names, unless the program ends there. */
  ghost predicate Moves(s: State, a: Action, now: State) {
    && now.clock == Finish(a) && now.timely == Steady(s, a)
    && match a
       case Boot(_, _, _, _, _) =>
         if now.mode == Off then now.past == s.past && now.under == s.under
         else
           && now.under == Nothing && (now.past == s.past || (s.under.Shots? && OneMore(s, s.under.shots, now)))
           && (now.mode == Reloaded ==> s.under.Shots? && OneMore(s, s.under.shots, now))
       case Check(shots, _, _, _) =>
         && now.mode != Reloaded
         && if now.mode == Ready then
              && s.mode != Off && now.under == Nothing && OneMore(s, shots, now)
              && (s.mode == Ready ==> Joins(s.st, now.st, false))
              && (s.mode == Reloaded && now.timely ==> now.st.cuts == s.st.cuts + [true])
            else
              || (now.past == s.past && s.mode != Off && now.under == Shots(shots))
              || (now.past == s.past && s.mode != Ready && now.m == s.m && now.under == s.under)
  }

  /** The program that runs. */
  ghost predicate Live(s: State, logger: GlobalLogger)
    reads logger, logger.disk
  {
    && logger.disk.m == s.m && s.under == Nothing && (s.timely ==> logger.timeStamp <= s.clock)
    && match s.mode
       case Off => false
       case Ready => logger.AtRest(s.st, Current(s))
       case Reloaded => logger.Blank(s.st, Current(s)) && logger.timeStamp == s.clock
  }

  ghost function FirstMoment(st: Story, tables: seq<Table>): Moment {
    Moment(DateOf(st.recs), tables, Last(st), if |st.ids| > 0 then |st.ids| - 1 else 0, |st.recs|)
  }

  /** Where a run starts: tables at rest with a log file. */
  lemma Initially(m: Media, st: Story, base: seq<Table>, tables: seq<Table>, clock: nat)
    requires Rests(m, st, tables) && |base| == |tables| && tables == Before(base, st.recs, DateOf(st.recs) + 1)
    requires Within(m.files, clock) && DateOf(st.recs) <= clock && Timely(st.recs) && Naming(m, st, clock)
    ensures Sound(State(m, st, [FirstMoment(st, tables)], Nothing, Off, clock, true), base)
  {
    assert Formed(st.recs, |tables|) && Shape(st);
    hide Rests, DateOf, Before, Parts, Formed, Timely, Naming;
    assert Ordered(st.recs, |tables|);
    AllBefore(st.recs, |tables|);
    FirstStood(st, base, tables);
    AloneComplete(FirstMoment(st, tables), st.recs);
  }

  lemma FirstStood(st: Story, base: seq<Table>, tables: seq<Table>)
    requires Shape(st) && Parts(st.recs, |st.recs|, DateOf(st.recs))
    requires tables == Before(base, st.recs, DateOf(st.recs) + 1)
    ensures Stood(FirstMoment(st, tables), st, base)
  {
    hide Parts, Before, DateOf;
    assert st.starts[|st.ids| - 1] <= st.starts[|st.ids|];
  }

  lemma AloneComplete(mo: Moment, recs: seq<Rec>)
    requires mo.at == |recs|
    ensures Complete([mo], recs) && Rising([mo])
  {
  }

  lemma MarkedWithin(was: seq<File>, now: seq<File>, L: nat, stamp: nat, clock: nat, later: nat)
    requires MarkedBy(was, now, L, stamp) && Within(was, clock) && clock <= later && L <= later && stamp <= later
    ensures Within(now, later)
  {
  }

  // ---------- what the log files name ----------

  lemma ChainsLater(was: map<nat, Log>, now: map<nat, Log>, F: nat, L: nat, clock: nat, later: nat)
    requires ChainsWithin(was, clock) && ChainsBy(was, now, F, L) && clock <= later && L <= later
    ensures ChainsWithin(now, later)
  {
    forall t | t in now
      ensures now[t].key.chain <= later
    {
      assert t in was ==> was[t].key.chain <= clock;
    }
  }

  /** Files that are not the last one of the story name what they named. */
  lemma ApartStays(was: map<nat, Log>, now: map<nat, Log>, F: nat, L: nat, st: Story)
    requires Apart(was, st) && ChainsBy(was, now, F, L) && Shape(st) && (F == Last(st) || F == L == 0)
    ensures Apart(now, st)
  {
    forall k {:trigger st.cuts[k]} | 0 < k < |st.ids| && st.cuts[k]
      ensures st.ids[k - 1] in now ==> now[st.ids[k - 1]].key.chain < st.ids[k]
    {
      LastIn(st, k - 1);
      assert st.ids[k - 1] < st.ids[k];
    }
  }

  lemma ApartTold(logs: map<nat, Log>, st: Story, rec: Rec)
    requires Apart(logs, st) && |st.starts| == |st.ids| + 1
    ensures Apart(logs, Told(st, rec))
  {
  }

  lemma ApartMoved(logs: map<nat, Log>, st: Story, L: nat, cut: bool)
    requires Apart(logs, st) && Shape(st)
    requires cut && L != Last(st) && Last(st) in logs ==> logs[Last(st)].key.chain < L
    ensures Apart(logs, Moved(st, L, cut))
  {
  }

  lemma AtLast(m: Media, st: Story, tables: seq<Table>)
    requires Rests(m, st, tables)
    ensures Ahead(m, st)
  {
    hide Chron, Dated, Idle;
  }

  /** A restart changes no name. */
  lemma NamingStays(was: Media, now: Media, st: Story, kept: Story, L: nat, stamp: nat, clock: nat, later: nat)
    requires Naming(was, st, clock) && ChainsBy(was.logs, now.logs, 0, 0) && Newest(was, L) && clock <= later
    requires MarkedBy(was.files, now.files, L, stamp) && Shape(st) && Kept(st, kept)
    ensures Naming(now, kept, later)
  {
    ChainsLater(was.logs, now.logs, 0, 0, clock, later);
    ApartStays(was.logs, now.logs, 0, 0, st);
    ApartTold(now.logs, st, Rec(0, Abort, []));
    hide Apart, ChainsWithin;
    AheadStays(was, now, st, L, stamp);
  }

  lemma AheadStays(was: Media, now: Media, st: Story, L: nat, stamp: nat)
    requires Ahead(was, st) && ChainsBy(was.logs, now.logs, 0, 0) && Newest(was, L)
    requires MarkedBy(was.files, now.files, L, stamp)
    ensures Ahead(now, st)
  {
    var i :| 0 <= i < |was.files| && was.files[i].id == L;
    var F := Last(st);
    assert L > F ==> LogAt(was, F).key.chain <= L;
    assert LogAt(now, F).key.chain <= LogAt(was, F).key.chain;
    forall j {:trigger now.files[j]} | 0 <= j < |now.files| && now.files[j].id > F
      ensures LogAt(now, F).key.chain <= now.files[j].id
    {
      assert was.files[j].id > F ==> LogAt(was, F).key.chain <= was.files[j].id;
    }
  }

  /** A checkpoint that was stopped. */
  lemma NamingStopped(was: Media, now: Media, st: Story, tables: seq<Table>, L: nat, stamp: nat, clock: nat,
      later: nat)
    requires Naming(was, st, clock) && Rests(was, st, tables) && ChainsBy(was.logs, now.logs, Last(st), L)
    requires MarkedBy(was.files, now.files, L, stamp) && Shape(st) && clock <= later && L <= later
    requires L > Last(st) ==> clock <= L
    ensures Naming(now, st, later) && (L > Last(st) ==> LogAt(now, Last(st)).key.chain <= L)
  {
    AllLast(was, st, tables);
    hide Rests;
    ChainsLater(was.logs, now.logs, Last(st), L, clock, later);
    ApartStays(was.logs, now.logs, Last(st), L, st);
    hide Apart;
    assert Last(st) in was.logs ==> was.logs[Last(st)].key.chain <= clock;
    hide ChainsWithin;
  }

  lemma AllLast(m: Media, st: Story, tables: seq<Table>)
    requires Rests(m, st, tables)
    ensures Last(st) > 0 && forall i {:trigger m.files[i]} | 0 <= i < |m.files| :: m.files[i].id == Last(st)
  {
    hide Chron, Dated, Idle;
  }

  /** The story has one record more, possibly in a new log file. */
  lemma NamingGrows(m: Media, st: Story, L: nat, cut: bool, rec: Rec, tables: seq<Table>, clock: nat)
    requires Naming(m, st, clock) && Shape(st) && Rests(m, Grown(st, L, cut, rec), tables)
    requires L > Last(st) ==> LogAt(m, Last(st)).key.chain <= L
    ensures Naming(m, Grown(st, L, cut, rec), clock)
  {
    CutApart(m, st, L, cut, rec, tables);
    AtLast(m, Grown(st, L, cut, rec), tables);
    hide Rests, Ahead, ChainsWithin;
    ApartMoved(m.logs, st, L, cut);
    ApartTold(m.logs, Moved(st, L, cut), rec);
  }

  lemma CutApart(m: Media, st: Story, L: nat, cut: bool, rec: Rec, tables: seq<Table>)
    requires Shape(st) && Rests(m, Grown(st, L, cut, rec), tables)
    ensures L >= Last(st) && (cut && L != Last(st) ==> LogAt(m, Last(st)).key.chain != L)
  {
    var z := Grown(st, L, cut, rec);
    assert Chron(m.logs, |tables|, z);
    hide Rests, AllTold, Formed, Below, Loose;
    if L != Last(st) {
      var k := |st.ids| - 1;
      assert z.ids[k] == Last(st) && z.ids[k + 1] == L && z.cuts[k + 1] == cut;
      assert Follows(m.logs, z, k);
    }
  }

  // ---------- the states behind an action ----------

  /** The tables at rest with one record more. */
  lemma GrownFacts(m: Media, st: Story, L: nat, cut: bool, rec: Rec, tables: seq<Table>)
    requires Shape(st) && rec.result == Commit && Rests(m, Grown(st, L, cut, rec), tables)
    ensures ShotsFit(rec.shots, |tables|) && DateOf(st.recs + [rec]) == rec.stamp && L >= Last(st)
    ensures |m.files| > 0 && m.files[0].check == rec.stamp
  {
    var now := Grown(st, L, cut, rec);
    LastRec(st.recs, |tables|, rec);
    CutApart(m, st, L, cut, rec, tables);
    hide Chain, AllTold, Idle, Formed, Below, Loose, Shape;
    assert m.files[0].check == DateOf(now.recs);
  }

  /** The state after a record was committed. */
  ghost function Advanced(s: State, m: Media, L: nat, cut: bool, rec: Rec, mode: Mode, clock: nat,
      timely: bool): State
    requires |s.st.starts| == |s.st.ids| + 1 && |Current(s)| == |rec.shots|
  {
    var st := Grown(s.st, L, cut, rec);
    State(m, st, s.past + [NextMoment(st, Current(s), rec)], Nothing, mode, clock, timely)
  }

  lemma AdvancedIs(s: State, m: Media, L: nat, cut: bool, rec: Rec, mode: Mode, clock: nat, timely: bool)
    requires |s.st.starts| == |s.st.ids| + 1 && |Current(s)| == |rec.shots|
    ensures var now := Advanced(s, m, L, cut, rec, mode, clock, timely);
            && |now.past| > 0 && Current(now) == News(Current(s), rec.shots) && OneMore(s, rec.shots, now)
            && now.st == Grown(s.st, L, cut, rec) && now.m == m && now.under == Nothing && now.timely == timely
            && now.mode == mode && now.clock == clock
  {
    hide Grown, News;
    assert (s.past + [NextMoment(Grown(s.st, L, cut, rec), Current(s), rec)])[..|s.past|] == s.past;
  }

  lemma AdvancedSound(s: State, base: seq<Table>, m: Media, L: nat, cut: bool, rec: Rec, mode: Mode, clock: nat,
      timely: bool)
    requires Sound(s, base) && Shape(s.st) && Formed(s.st.recs, |base|) && rec.result == Commit
    requires |rec.shots| == |base| && Rests(m, Grown(s.st, L, cut, rec), News(Current(s), rec.shots))
    requires timely ==> s.timely && Within(m.files, clock) && rec.stamp > DateOf(s.st.recs)
    requires timely ==> Naming(m, s.st, clock) && (L > Last(s.st) ==> LogAt(m, Last(s.st)).key.chain <= L)
    ensures var now := Advanced(s, m, L, cut, rec, mode, clock, timely);
            && Sound(now, base) && OneMore(s, rec.shots, now) && now.m == m && now.mode == mode
            && now.under == Nothing && now.st == Grown(s.st, L, cut, rec)
            && Current(now) == News(Current(s), rec.shots) && now.clock == clock && now.timely == timely
  {
    assert |s.st.starts| == |s.st.ids| + 1 && |Current(s)| == |base|;
    hide Rests, Recoverable, Formed, DateOf, Shape, Chronicled, Naming, Within, Advanced, OneMore, Grown, Current;
    GrownFacts(m, s.st, L, cut, rec, News(Current(s), rec.shots));
    AdvancedIs(s, m, L, cut, rec, mode, clock, timely);
    if timely {
      NamingGrows(m, s.st, L, cut, rec, News(Current(s), rec.shots), clock);
      AdvancedTold(s, base, m, L, cut, rec, mode, clock);
    }
  }

  lemma AdvancedTold(s: State, base: seq<Table>, m: Media, L: nat, cut: bool, rec: Rec, mode: Mode, clock: nat)
    requires |s.past| > 0 && |Current(s)| == |base| && Chronicled(s, base) && Shape(s.st) && Formed(s.st.recs, |base|)
    requires rec.result == Commit && ShotsFit(rec.shots, |base|) && rec.stamp > DateOf(s.st.recs)
    requires Within(m.files, clock) && |m.files| > 0 && m.files[0].check == rec.stamp
    requires Naming(m, Grown(s.st, L, cut, rec), clock) && DateOf(s.st.recs + [rec]) == rec.stamp
    ensures |s.st.starts| == |s.st.ids| + 1 && |rec.shots| == |base|
    ensures Chronicled(Advanced(s, m, L, cut, rec, mode, clock, true), base)
  {
    assert m.files[0].check <= clock;
    assert |s.st.starts| == |s.st.ids| + 1 && |rec.shots| == |base|;
    hide Formed, DateOf, Shape, Recorded, Grown, Naming, Within, ShotsFit, News, Advanced, NextMoment, Current;
    PastGrows(s.past, s.st, base, |base|, L, cut, rec);
    GrownRecs(s.st, L, cut, rec);
    AdvancedPast(s, m, L, cut, rec, mode, clock);
  }

  lemma AdvancedPast(s: State, m: Media, L: nat, cut: bool, rec: Rec, mode: Mode, clock: nat)
    requires |s.past| > 0 && |s.st.starts| == |s.st.ids| + 1 && |Current(s)| == |rec.shots|
    ensures |s.past[|s.past| - 1].tables| == |rec.shots|
    ensures var now := Advanced(s, m, L, cut, rec, mode, clock, true);
            && now.m == m && now.st == Grown(s.st, L, cut, rec) && now.clock == clock
            && now.past == s.past + [NextMoment(Grown(s.st, L, cut, rec), s.past[|s.past| - 1].tables, rec)]
            && now.past[|s.past|].id == Last(now.st)
  {
    hide Grown, News, Last;
  }

  /** The snapshots that a restart may find. */
  ghost function Pending(s: State, n: nat): (shots: seq<seq<LogPage>>)
    ensures s.under.Nothing? ==> ShotsFit(shots, n)
  {
    if s.under.Shots? then s.under.shots else seq(n, i requires 0 <= i < n => [])
  }

  lemma Restartable(s: State, base: seq<Table>)
    requires Sound(s, base)
    ensures ShotsFit(Pending(s, |base|), |base|)
    ensures Recoverable(s.m, s.st, Current(s), Pending(s, |base|), s.timely)
    ensures Shape(s.st) && Formed(s.st.recs, |base|) && |s.m.files| == |base| == |Current(s)| > 0
  {
    var shots := Pending(s, |base|);
    assert ShotsFit(shots, |base|);
    assert Recoverable(s.m, s.st, Current(s), shots, s.timely) by {
      if s.under.Nothing? { assert Rests(s.m, s.st, Current(s)); }
    }
    StoryOf(s.m, s.st, Current(s), shots, s.timely);
  }

  /** The state after a restart that kept the tables, or that was stopped. */
  ghost function Again(s: State, m: Media, st: Story, mode: Mode, clock: nat, timely: bool): State {
    State(m, st, s.past, if mode == Off then s.under else Nothing, mode, clock, timely)
  }

  lemma AgainSound(s: State, base: seq<Table>, m: Media, st: Story, mode: Mode, clock: nat, timely: bool)
    requires Sound(s, base) && Shape(s.st) && Formed(s.st.recs, |base|) && Kept(s.st, st)
    requires timely ==> s.timely && Within(m.files, clock) && s.clock <= clock && Naming(m, st, clock)
    requires if mode != Off || s.under.Nothing? then Rests(m, st, Current(s))
             else Recoverable(m, st, Current(s), s.under.shots, timely)
    ensures Sound(Again(s, m, st, mode, clock, timely), base)
  {
    hide Rests, Recoverable, Formed, ShotsFit, Naming;
    assert Current(Again(s, m, st, mode, clock, timely)) == Current(s);
    if timely { AgainTold(s, base, m, st, mode, clock); }
    hide Chronicled, Current, Shape, Kept;
  }

  lemma AgainTold(s: State, base: seq<Table>, m: Media, st: Story, mode: Mode, clock: nat)
    requires |s.past| > 0 && Chronicled(s, base) && Shape(s.st) && Formed(s.st.recs, |base|) && Kept(s.st, st)
    requires Within(m.files, clock) && s.clock <= clock && Naming(m, st, clock)
    ensures Chronicled(Again(s, m, st, mode, clock, true), base)
  {
    hide Formed, DateOf, Within, Naming;
    assert Last(st) == Last(s.st);
    hide Recorded, Last, Shape;
    if st == Aborted(s.st) {
      PastAborts(s.past, s.st, base, |base|);
      FormedMore(s.st.recs, |base|, Rec(0, Abort, []));
    }
  }

  // ---------- restarts ----------

  lemma NewestWithin(m: Media, t: nat, clock: nat)
    requires Newest(m, t) && Within(m.files, clock)
    ensures t <= clock
  {
  }

  lemma Clocks(s: State, base: seq<Table>)
    requires Sound(s, base)
    ensures s.timely ==> DateOf(s.st.recs) <= s.clock && Within(s.m.files, s.clock) && Naming(s.m, s.st, s.clock)
  {
  }

  /** In front of the story, the newest log file that a table names is not older than what the story names. */
  lemma NewestAhead(was: Media, now: Media, st: Story, L: nat, clock: nat)
    requires Naming(was, st, clock) && ChainsBy(was.logs, now.logs, 0, 0) && Newest(was, L)
    ensures L > Last(st) ==> LogAt(now, Last(st)).key.chain <= L
  {
    var i :| 0 <= i < |was.files| && was.files[i].id == L;
    assert L > Last(st) ==> LogAt(was, Last(st)).key.chain <= L;
  }

  /** What the tables and the log files name after a restart. */
  lemma BootedNames(s: State, base: seq<Table>, a: Action, m: Media, kept: Story, L: nat, stamp: nat)
    requires a.Boot? && Sound(s, base) && Shape(s.st) && Kept(s.st, kept) && Steady(s, a) && stamp <= a.load
    requires Newest(s.m, L) && MarkedBy(s.m.files, m.files, L, stamp) && ChainsBy(s.m.logs, m.logs, 0, 0)
    ensures Within(m.files, a.load) && Naming(m, kept, a.load)
    ensures L > Last(s.st) ==> LogAt(m, Last(s.st)).key.chain <= L
  {
    Clocks(s, base);
    hide Sound, Shape, Within, Naming, Newest, MarkedBy, ChainsBy, Kept;
    NewestWithin(s.m, L, s.clock);
    MarkedWithin(s.m.files, m.files, L, stamp, s.clock, a.load);
    NamingStays(s.m, m, s.st, kept, L, stamp, s.clock, a.load);
    NewestAhead(s.m, m, s.st, L, s.clock);
  }

  lemma BootedAgain(s: State, base: seq<Table>, a: Action, m: Media, st: Story, mode: Mode) returns (now: State)
    requires a.Boot? && Sound(s, base) && Shape(s.st) && Formed(s.st.recs, |base|) && Kept(s.st, st)
    requires mode != Reloaded && (Steady(s, a) ==> Within(m.files, a.load) && Naming(m, st, a.load))
    requires if mode != Off || s.under.Nothing? then Rests(m, st, Current(s))
             else Recoverable(m, st, Current(s), s.under.shots, Steady(s, a))
    ensures Sound(now, base) && now.m == m && now.mode == mode && Moves(s, a, now)
    ensures mode != Off ==> now.under == Nothing && now.st == st && Current(now) == Current(s)
  {
    hide Sound, Rests, Recoverable, Formed, Shape, Kept, Within, Naming;
    AgainSound(s, base, m, st, mode, a.load, Steady(s, a));
    now := Again(s, m, st, mode, a.load, Steady(s, a));
  }

  lemma StillPending(s: State, base: seq<Table>, m: Media, kept: Story, fair: bool)
    requires Sound(s, base) && Recoverable(m, kept, Current(s), Pending(s, |base|), fair)
    requires Rests(s.m, s.st, Current(s)) ==> Rests(m, kept, Current(s))
    ensures if s.under.Nothing? then Rests(m, kept, Current(s))
            else Recoverable(m, kept, Current(s), s.under.shots, fair)
  {
    hide Rests, Recoverable, Current, Chronicled;
  }

  /** What restarts leave. */
  lemma Booted(s: State, base: seq<Table>, a: Action, m: Media, kept: Story, st: Story, tables: seq<Table>, L: nat,
      stamp: nat, mode: Mode)
    returns (now: State)
    requires a.Boot? && Sound(s, base) && Shape(s.st) && Formed(s.st.recs, |base|)
    requires Kept(s.st, kept) && Recoverable(m, kept, Current(s), Pending(s, |base|), Steady(s, a))
    requires Newest(s.m, L) && MarkedBy(s.m.files, m.files, L, stamp) && ChainsBy(s.m.logs, m.logs, 0, 0)
    requires Steady(s, a) ==> stamp <= a.load
    requires mode != Off ==>
               Rests(m, st, tables) && Landed(s.st, Current(s), Pending(s, |base|), Steady(s, a), L, st, tables)
    requires mode == Reloaded ==> Further(s.st, Current(s), Pending(s, |base|), Steady(s, a), L, st, tables)
    requires Rests(s.m, s.st, Current(s)) ==>
               && Rests(m, kept, Current(s)) && mode != Reloaded
               && (mode == Ready ==> st == kept && tables == Current(s))
    ensures Sound(now, base) && now.m == m && now.mode == mode && Moves(s, a, now)
    ensures mode != Off ==> now.under == Nothing && now.st == st && Current(now) == tables
  {
    StillPending(s, base, m, kept, Steady(s, a));
    assert s.under.Nothing? ==> Rests(s.m, s.st, Current(s));
    assert Kept(s.st, s.st);
    hide Sound, Rests, Recoverable, Formed, Shape, Further, Kept, Within, Naming, Newest, MarkedBy, ChainsBy, Current,
      Pending, Moves, Steady;
    if mode == Off {
      if Steady(s, a) { BootedNames(s, base, a, m, kept, L, stamp); }
      now := BootedAgain(s, base, a, m, kept, Off);
    } else if mode == Ready && Kept(s.st, st) && tables == Current(s) {
      if Steady(s, a) { BootedNames(s, base, a, m, st, L, stamp); }
      now := BootedAgain(s, base, a, m, st, Ready);
    } else {
      if Steady(s, a) { BootedNames(s, base, a, m, s.st, L, stamp); }
      now := BootedFurther(s, base, a, m, st, tables, L, mode);
    }
  }

  lemma BootedFurther(s: State, base: seq<Table>, a: Action, m: Media, st: Story, tables: seq<Table>, L: nat,
      mode: Mode)
    returns (now: State)
    requires a.Boot? && Sound(s, base) && Shape(s.st) && Formed(s.st.recs, |base|) && mode != Off && s.under.Shots?
    requires Rests(m, st, tables) && Further(s.st, Current(s), Pending(s, |base|), Steady(s, a), L, st, tables)
    requires Steady(s, a) ==> Within(m.files, a.load) && Naming(m, s.st, a.load)
    requires Steady(s, a) && L > Last(s.st) ==> LogAt(m, Last(s.st)).key.chain <= L
    ensures Sound(now, base) && now.m == m && now.mode == mode && Moves(s, a, now)
    ensures now.under == Nothing && now.st == st && Current(now) == tables
  {
    hide Rests, Recoverable, Formed, Shape, Chronicled, DateOf, Grown, News, Within, Naming;
    var fair, shots := Steady(s, a), Pending(s, |base|);
    var cut: bool, t: nat :| st == Grown(s.st, L, cut, Rec(t, Commit, shots)) && (fair ==> t > DateOf(s.st.recs));
    AdvancedSound(s, base, m, L, cut, Rec(t, Commit, shots), mode, a.load, fair);
    now := Advanced(s, m, L, cut, Rec(t, Commit, shots), mode, a.load, fair);
  }

  /** The times of a restart, if the clock has moved on. */
  lemma BootTimes(s: State, base: seq<Table>, a: Action)
    requires a.Boot? && Sound(s, base) && Steady(s, a)
    ensures a.time > DateOf(s.st.recs)
    ensures forall L: nat {:trigger Newest(s.m, L)} | Newest(s.m, L) :: L < a.time <= a.load
  {
    Clocks(s, base);
    hide Sound, DateOf, Newest, Within, Naming;
    forall L: nat | Newest(s.m, L)
      ensures L < a.time
    {
      NewestWithin(s.m, L, s.clock);
    }
  }

  /** What the program goes on with. */
  lemma LiveAgain(s: State, a: Action, now: State, logger: GlobalLogger, st: Story, tables: seq<Table>)
    requires a.Boot? && Moves(s, a, now) && logger.disk.m == now.m && now.under == Nothing && now.mode != Off
    requires now.st == st && Current(now) == tables && (Steady(s, a) ==> logger.timeStamp <= a.load)
    requires if now.mode == Ready then logger.AtRest(st, tables)
             else logger.Blank(st, tables) && logger.timeStamp == a.load
    ensures Live(now, logger)
  {
    MovesClock(s, a, now);
    hide Moves, Steady;
  }

  /** An action leads from a budget of b page writes to c.  The machine stops only when the budget is used up, and
      neither a restart nor a checkpoint makes more than so many writes; but without an open log file, and if none is
      begun, a checkpoint ends the program. */
  ghost predicate Spends(s: State, b: nat, a: Action, now: State, c: nat, n: nat) {
    && (now.mode != Off ==> c > 0)
    && match a
       case Boot(budget, _, _, _, _) =>
         Left(budget, Writes(Pending(s, n)) + 1) <= c <= budget && (now.mode == Off <==> c == 0)
       case Check(shots, _, _, _) =>
         if s.mode == Off then c == b
         else
           && Left(b, 2 * Writes(shots) + n + 5) <= c <= b
           && (now.mode == Off && c > 0 ==> s.mode == Reloaded && c == b && now.m == s.m && now.past == s.past)
  }

  /** With that many writes left a restart and a checkpoint are completed. */
  lemma EnoughLeft(s: State, b: nat, a: Action, now: State, c: nat, n: nat)
    requires Moves(s, a, now) && Spends(s, b, a, now, c, n)
    ensures a.Boot? && a.budget > Writes(Pending(s, n)) + 1 ==> now.mode != Off && now.under == Nothing
    ensures a.Check? && s.mode == Ready && b > 2 * Writes(a.shots) + n + 5 ==>
              now.mode == Ready && now.under == Nothing && OneMore(s, a.shots, now)
  {
    hide OneMore, Writes, Pending, Steady, Joins;
  }

  /** The machine is switched on; init() goes on with a new logger if there was something to redo. */
  method Power(disk: Disk, recMax: nat, rotatePages: nat, a: Action, ghost s: State, ghost base: seq<Table>)
    returns (logger: GlobalLogger, ghost now: State)
    requires a.Boot? && Sound(s, base) && disk.m == s.m && HasRoom(disk.m) && 0 < recMax <= KEYROOM
    modifies disk
    ensures fresh(logger) && logger.disk == disk && Sound(now, base) && now.m == disk.m
    ensures (now.mode == Off) == (disk.budget == 0) && (now.mode != Off ==> Live(now, logger)) && Moves(s, a, now)
    ensures Spends(s, old(disk.budget), a, now, disk.budget, |base|)
  {
    Restartable(s, base);
    ghost var fair := Steady(s, a);
    if fair { BootTimes(s, base, a); }
    Weaker(s.m, s.st, Current(s), Pending(s, |base|), s.timely, fair);
    hide Sound, Rests, Recoverable, Formed, Shape, ShotsFit, Newest, HasRoom, Landed, Further, MarkedBy, Kept, DateOf,
      Current, Pending, ChainsBy, Moves, Steady, Live, Examined, RestartSpent, Spends;
    ghost var b := disk.budget;
    disk.budget := a.budget;
    logger := new GlobalLogger(disk, |disk.m.files|, recMax, rotatePages, a.time, a.page);
    var redo;
    ghost var kept, st, tables;
    redo, kept, st, tables := logger.Restart(a.behind, a.time, s.st, Current(s), Pending(s, |base|), fair);
    assert disk.budget > 0 ==> Rests(disk.m, st, tables);
    ghost var mode := if disk.budget == 0 then Off else if redo then Reloaded else Ready;
    now := Booted(s, base, a, disk.m, kept, st, tables, logger.L, logger.timeStamp, mode);
    RestartSpends(s, b, a, now, logger.L, redo, disk.budget, |base|);
    if !redo {
      if disk.budget > 0 { LiveAgain(s, a, now, logger, st, tables); }
      return;
    }
    if disk.budget > 0 { logger.RestsKnown(disk.m, st, tables); }
    logger := new GlobalLogger(disk, |disk.m.files|, recMax, rotatePages, a.load, a.page);
    if disk.budget > 0 { LiveAgain(s, a, now, logger, st, tables); }
  }

  lemma MovesClock(s: State, a: Action, now: State)
    requires Moves(s, a, now)
    ensures now.clock == Finish(a) && now.timely == Steady(s, a)
  {
  }

  // ---------- checkpoints ----------

  /** What the tables and the log files name after a checkpoint. */
  lemma CheckedNames(s: State, base: seq<Table>, a: Action, m: Media, L: nat, stamp: nat)
    requires a.Check? && Sound(s, base) && s.under.Nothing? && Shape(s.st) && Steady(s, a)
    requires MarkedBy(s.m.files, m.files, L, stamp) && ChainsBy(s.m.logs, m.logs, Last(s.st), L)
    requires L <= a.stamp && stamp <= a.stamp && (L > Last(s.st) ==> s.clock <= L)
    ensures Within(m.files, a.stamp) && Naming(m, s.st, a.stamp)
    ensures L > Last(s.st) ==> LogAt(m, Last(s.st)).key.chain <= L
  {
    Clocks(s, base);
    assert Rests(s.m, s.st, Current(s));
    hide Sound, Rests, Shape, Within, Naming, MarkedBy, ChainsBy, Current;
    MarkedWithin(s.m.files, m.files, L, stamp, s.clock, a.stamp);
    NamingStopped(s.m, m, s.st, Current(s), L, stamp, s.clock, a.stamp);
  }

  lemma CheckedDone(s: State, base: seq<Table>, a: Action, m: Media, L: nat, cut: bool, rec: Rec) returns (now: State)
    requires a.Check? && Sound(s, base) && s.mode != Off && Shape(s.st) && Formed(s.st.recs, |base|)
    requires rec.result == Commit && rec.shots == a.shots && |rec.shots| == |base|
    requires Rests(m, Grown(s.st, L, cut, rec), News(Current(s), rec.shots))
    requires Steady(s, a) ==> Within(m.files, a.stamp) && rec.stamp > DateOf(s.st.recs) && Naming(m, s.st, a.stamp)
    requires Steady(s, a) && L > Last(s.st) ==> LogAt(m, Last(s.st)).key.chain <= L
    requires s.mode == Ready ==> !cut
    requires s.mode == Reloaded && Steady(s, a) ==> cut && L > Last(s.st)
    ensures |s.st.starts| == |s.st.ids| + 1
    ensures Sound(now, base) && now.m == m && now.mode == Ready && Moves(s, a, now)
    ensures now.under == Nothing && now.st == Grown(s.st, L, cut, rec) && Current(now) == News(Current(s), rec.shots)
  {
    hide Rests, Formed, Chronicled, DateOf, Grown, News, Within, Naming, Recoverable;
    AdvancedSound(s, base, m, L, cut, rec, Ready, a.stamp, Steady(s, a));
    now := Advanced(s, m, L, cut, rec, Ready, a.stamp, Steady(s, a));
    JoinsGrown(s.st, L, cut, rec);
  }

  lemma CheckedStopped(s: State, base: seq<Table>, a: Action, m: Media) returns (now: State)
    requires a.Check? && Sound(s, base) && s.mode != Off && ShotsFit(a.shots, |base|)
    requires Recoverable(m, s.st, Current(s), a.shots, Steady(s, a))
    requires Steady(s, a) ==> Within(m.files, a.stamp) && Naming(m, s.st, a.stamp)
    ensures Sound(now, base) && now.m == m && now.mode == Off && Moves(s, a, now)
  {
    hide Rests, Recoverable, ShotsFit, Chronicled, Within, Naming;
    now := State(m, s.st, s.past, Shots(a.shots), Off, a.stamp, Steady(s, a));
    if Steady(s, a) { StoppedTold(s, base, now); }
  }

  /** The program ended at its first write. */
  lemma CheckedDead(s: State, base: seq<Table>, a: Action) returns (now: State)
    requires a.Check? && Sound(s, base) && s.mode != Ready
    ensures Sound(now, base) && now.m == s.m && now.mode == Off && Moves(s, a, now) && now.past == s.past
  {
    now := State(s.m, s.st, s.past, s.under, Off, a.stamp, Steady(s, a));
    assert Current(now) == Current(s);
    if s.under.Shots? { Weaker(s.m, s.st, Current(s), s.under.shots, s.timely, Steady(s, a)); }
    if Steady(s, a) {
      Clocks(s, base);
      WithinLater(s.m, s.st, s.clock, a.stamp);
      StoppedTold(s, base, now);
    }
    hide Rests, Recoverable, Chronicled, Current, ShotsFit;
  }

  lemma WithinLater(m: Media, st: Story, clock: nat, later: nat)
    requires Within(m.files, clock) && Naming(m, st, clock) && clock <= later
    ensures Within(m.files, later) && Naming(m, st, later)
  {
  }

  lemma LastWithin(m: Media, st: Story, tables: seq<Table>, clock: nat)
    requires Rests(m, st, tables) && Within(m.files, clock)
    ensures Last(st) <= clock
  {
    hide Chron, Dated, Idle;
    assert m.files[0].id == Last(st);
  }

  lemma JoinsGrown(st: Story, L: nat, cut: bool, rec: Rec)
    requires |st.starts| == |st.ids| + 1
    ensures Joins(st, Grown(st, L, cut, rec), cut)
    ensures L != Last(st) ==> Grown(st, L, cut, rec).cuts == st.cuts + [cut]
  {
  }

  lemma StoppedTold(s: State, base: seq<Table>, now: State)
    requires |s.past| > 0 && Chronicled(s, base) && s.clock <= now.clock && now.st == s.st && now.past == s.past
    requires Within(now.m.files, now.clock) && Naming(now.m, now.st, now.clock)
    ensures Chronicled(now, base)
  {
    hide Recorded, DateOf, Last, Within, Naming;
  }

  /** The times of a checkpoint, if the clock has moved on. */
  lemma CheckTimes(s: State, base: seq<Table>, a: Action, L: nat, cut: bool, stamp: nat, rotate: bool, ts: nat)
    requires a.Check? && Sound(s, base) && s.under.Nothing? && Steady(s, a) && ts <= s.clock
    requires L == (if rotate then Tick(a.now, ts) else Last(s.st)) && stamp == Tick(a.stamp, if rotate then L else ts)
    requires cut == (s.mode == Reloaded && LogAt(s.m, Last(s.st)).key.chain != L) && (s.mode == Reloaded ==> rotate)
    ensures DateOf(s.st.recs) < stamp == a.stamp && L <= a.stamp && (L > Last(s.st) ==> s.clock <= L)
    ensures s.mode == Reloaded ==> cut && L > Last(s.st)
  {
    Clocks(s, base);
    assert Rests(s.m, s.st, Current(s));
    hide Sound, DateOf, Rests, Current;
    LastWithin(s.m, s.st, Current(s), s.clock);
    hide Within, Apart, Ahead;
    assert Last(s.st) in s.m.logs ==> s.m.logs[Last(s.st)].key.chain <= s.clock;
  }

  /** What a checkpoint leaves. */
  lemma Checked(s: State, base: seq<Table>, a: Action, m: Media, L: nat, cut: bool, stamp: nat, rotate: bool, ts: nat,
      on: bool)
    returns (now: State)
    requires a.Check? && Sound(s, base) && s.mode != Off && Shape(s.st) && Formed(s.st.recs, |base|)
    requires ShotsFit(a.shots, |base|) && |Current(s)| == |base| && (s.timely ==> ts <= s.clock)
    requires L == (if rotate then Tick(a.now, ts) else Last(s.st)) && stamp == Tick(a.stamp, if rotate then L else ts)
    requires cut == (s.mode == Reloaded && LogAt(s.m, Last(s.st)).key.chain != L) && (s.mode == Reloaded ==> rotate)
    requires Recoverable(m, s.st, Current(s), a.shots, stamp > DateOf(s.st.recs))
    requires MarkedBy(s.m.files, m.files, L, stamp) && ChainsBy(s.m.logs, m.logs, Last(s.st), L)
    requires |s.st.starts| == |s.st.ids| + 1 && |a.shots| == |base|
    requires on ==> Rests(m, Grown(s.st, L, cut, Rec(stamp, Commit, a.shots)), News(Current(s), a.shots))
    ensures Sound(now, base) && now.m == m && now.mode == (if on then Ready else Off) && Moves(s, a, now)
    ensures on ==>
              && now.under == Nothing && now.st == Grown(s.st, L, cut, Rec(stamp, Commit, a.shots))
              && Current(now) == News(Current(s), a.shots)
  {
    assert s.under.Nothing?;
    hide Sound, Rests, Recoverable, Formed, Shape, ShotsFit, Within, Naming, MarkedBy, ChainsBy, Current, Moves, Grown,
      News, DateOf, Steady;
    if Steady(s, a) {
      assert s.timely by { SteadyTimely(s, a); }
      CheckTimes(s, base, a, L, cut, stamp, rotate, ts);
      CheckedNames(s, base, a, m, L, stamp);
    }
    if on {
      now := CheckedDone(s, base, a, m, L, cut, Rec(stamp, Commit, a.shots));
    } else {
      Weaker(m, s.st, Current(s), a.shots, stamp > DateOf(s.st.recs), Steady(s, a));
      now := CheckedStopped(s, base, a, m);
    }
  }

  lemma SteadyTimely(s: State, a: Action)
    requires Steady(s, a)
    ensures s.timely
  {
  }

  /** The program can make a checkpoint. */
  lemma LiveStarts(s: State, a: Action, logger: GlobalLogger)
    requires a.Check? && Live(s, logger) && (s.mode == Reloaded ==> Last(s.st) < Tick(a.now, s.clock))
    ensures logger.Startable(a.now, s.st, Current(s)) && s.mode != Off && logger.disk.m == s.m
    ensures logger.isOpen == (s.mode == Ready) && (logger.isOpen ==> logger.L == Last(s.st))
    ensures logger.n == |Current(s)|
    ensures s.timely ==> logger.timeStamp <= s.clock
  {
    hide Rests, Current;
  }

  /** And goes on behind it. */
  lemma LiveOn(s: State, a: Action, now: State, logger: GlobalLogger, last: nat)
    requires a.Check? && Moves(s, a, now) && now.mode == Ready && now.under == Nothing && logger.disk.m == now.m
    requires logger.AtRest(now.st, Current(now)) && logger.timeStamp == Tick(a.stamp, last)
    requires Steady(s, a) ==> last < a.stamp
    ensures Live(now, logger)
  {
    MovesClock(s, a, now);
    hide Moves, Steady, Rests, Current;
  }

  lemma RestartSpends(s: State, b: nat, a: Action, now: State, L: nat, redo: bool, c: nat, n: nat)
    requires a.Boot? && (now.mode == Off <==> c == 0)
    requires RestartSpent(a.budget, s.m, L, redo, Pending(s, n), c)
    ensures Spends(s, b, a, now, c, n)
  {
    hide Pending, Writes;
  }

  lemma CheckpointSpends(s: State, b: nat, a: Action, now: State, rotate: bool, open: bool, c: nat, n: nat)
    requires a.Check? && s.mode != Off && (now.mode == Off <==> c == 0)
    requires Spent(b, rotate, open, n, a.shots, c)
    ensures Spends(s, b, a, now, c, n)
  {
    hide Writes;
  }

  lemma DeadSpends(s: State, b: nat, a: Action, now: State, n: nat)
    requires a.Check? && s.mode == Reloaded && now.mode == Off && now.m == s.m && now.past == s.past
    ensures Spends(s, b, a, now, b, n)
  {
    hide Writes;
  }

  /** A checkpoint is made.  Without an open log file it is in a new one, or the program ends. */
  method MakeCheckpoint(logger: GlobalLogger, a: Action, ghost s: State, ghost base: seq<Table>)
    returns (alive: bool, ghost now: State)
    requires a.Check? && Sound(s, base) && Live(s, logger) && ShotsFit(a.shots, |base|)
    requires s.mode == Reloaded ==> Last(s.st) < Tick(a.now, s.clock)
    modifies logger, logger.disk
    ensures Sound(now, base) && now.m == logger.disk.m && Moves(s, a, now)
    ensures now.mode == (if alive && logger.disk.budget > 0 then Ready else Off)
    ensures alive ==>
              Spent(old(logger.disk.budget), old(logger.Rotates(a.rotate)), old(logger.isOpen), logger.n, a.shots,
                    logger.disk.budget)
    ensures !alive ==> s.mode == Reloaded && logger.disk.budget == old(logger.disk.budget) && now.m == s.m
                       && now.past == s.past
    ensures now.mode == Ready ==> Live(now, logger)
  {
    Restartable(s, base);
    LiveStarts(s, a, logger);
    ghost var rotate, ts := logger.Rotates(a.rotate), logger.timeStamp;
    ghost var last := if rotate then Tick(a.now, ts) else ts;
    assert (Steady(s, a) ==> last < a.stamp) && |a.shots| == |base|;
    hide Sound, Rests, Recoverable, Formed, Shape, ShotsFit, MarkedBy, ChainsBy, DateOf, Moves, Current, Grown, News,
      Live, Steady, GlobalLogger.Startable, Spent;
    ghost var cut;
    alive, cut := logger.Checkpoint(a.now, a.rotate, a.stamp, a.shots, s.st, Current(s));
    if alive {
      now := Checked(s, base, a, logger.disk.m, logger.L, cut, logger.timeStamp, rotate, ts, logger.disk.budget > 0);
      if logger.disk.budget > 0 { LiveOn(s, a, now, logger, last); }
    } else {
      now := CheckedDead(s, base, a);
    }
  }

  lemma LoggerSize(s: State, base: seq<Table>, logger: GlobalLogger)
    requires Sound(s, base) && Live(s, logger)
    ensures logger.n == |base| && (s.mode == Ready <==> logger.isOpen)
  {
    hide Rests, Recoverable, Chronicled;
  }

  // ---------- the run ----------

  ghost predicate Step(trace: seq<State>, script: seq<Action>, i: int) {
    0 <= i < |trace| - 1 && i < |script| && Moves(trace[i], script[i], trace[i + 1])
  }

  /** The trace follows the script, and every state of it is sound. */
  ghost predicate Performs(trace: seq<State>, script: seq<Action>, base: seq<Table>) {
    && 0 < |trace| <= |script| + 1
    && (forall i {:trigger trace[i]} | 0 <= i < |trace| :: Sound(trace[i], base))
    && forall i {:trigger Step(trace, script, i)} | 0 <= i < |trace| - 1 :: Step(trace, script, i)
  }

  lemma PerformsMore(trace: seq<State>, script: seq<Action>, base: seq<Table>, now: State)
    requires Performs(trace, script, base) && |trace| <= |script| && Sound(now, base)
    requires Moves(trace[|trace| - 1], script[|trace| - 1], now)
    ensures Performs(trace + [now], script, base)
  {
    hide Sound, Moves;
    var z := trace + [now];
    forall i | 0 <= i < |z| - 1
      ensures Step(z, script, i)
    {
      if i < |trace| - 1 { assert Step(trace, script, i); }
    }
  }

  /** With a clock that moves on, every state of a run is timely. */
  lemma {:induction false} StaysTimely(trace: seq<State>, script: seq<Action>, base: seq<Table>, i: nat)
    requires Performs(trace, script, base) && i < |trace| <= |script| + 1 && trace[0].timely
    requires Clocked(script, trace[0].clock)
    ensures trace[i].timely && (i > 0 ==> trace[i].clock == Finish(script[i - 1]))
    decreases i
  {
    hide Performs, Clocked;
    if i > 0 {
      StepClock(trace, script, base, i - 1);
      StaysTimely(trace, script, base, i - 1);
      ClockAt(script, trace[0].clock, i - 1);
    }
  }

  lemma StepClock(trace: seq<State>, script: seq<Action>, base: seq<Table>, i: nat)
    requires Performs(trace, script, base) && i + 1 < |trace|
    ensures i < |script| && trace[i + 1].clock == Finish(script[i])
    ensures trace[i + 1].timely == Steady(trace[i], script[i])
  {
    hide Sound;
    assert Step(trace, script, i);
  }

  lemma ClockAt(script: seq<Action>, clock: nat, k: nat)
    requires Clocked(script, clock) && k < |script|
    ensures (if k == 0 then clock else Finish(script[k - 1])) < Begin(script[k]) && InOrder(script[k])
  {
  }

  /** Why a run stops: at its end; where a restart would read an item behind a key page that is full; or where a logger
      without an open log file would begin one that is not later than the last. */
  datatype Outcome = Finished | PageFull | ClockBack

  /** The next log file would not be later than the last. */
  predicate SetBack(s: State, a: Action) {
    a.Check? && s.mode == Reloaded && Tick(a.now, s.clock) <= Last(s.st)
  }

  /** A clock that moves on never leads there. */
  lemma NeverBack(s: State, base: seq<Table>, a: Action)
    requires Sound(s, base) && SetBack(s, a) && s.under.Nothing?
    ensures !Steady(s, a)
  {
    if Steady(s, a) {
      Clocks(s, base);
      assert Rests(s.m, s.st, Current(s));
      hide Sound, Rests, Current, Within, Naming;
      LastWithin(s.m, s.st, Current(s), s.clock);
    }
  }

  /** Any sequence of restarts and checkpoints, each stopped after any number of page writes, at any readings of the
      clock: after every action the tables are all at the last checkpoint, or can be brought there or to the one
      under way, and a restart that ends has done so. */
  method Run(disk: Disk, recMax: nat, rotatePages: nat, script: seq<Action>, ghost s0: State, ghost base: seq<Table>)
    returns (outcome: Outcome, ghost trace: seq<State>, ghost left: seq<nat>)
    requires Sound(s0, base) && s0.mode == Off && disk.m == s0.m && 0 < recMax <= KEYROOM
    requires forall k {:trigger script[k]} | 0 <= k < |script| && script[k].Check? :: ShotsFit(script[k].shots, |base|)
    modifies disk
    ensures Performs(trace, script, base) && trace[0] == s0 && disk.m == trace[|trace| - 1].m
    ensures |left| == |trace| && forall k | 0 <= k < |trace| - 1 ::
              Spends(trace[k], left[k], script[k], trace[k + 1], left[k + 1], |base|)
    ensures match outcome
            case Finished => |trace| == |script| + 1
            case PageFull => |trace| <= |script| && script[|trace| - 1].Boot? && !HasRoom(disk.m)
            case ClockBack =>
              && |trace| <= |script| && SetBack(trace[|trace| - 1], script[|trace| - 1])
              && !Steady(trace[|trace| - 1], script[|trace| - 1])
  {
    hide Sound, Moves, HasRoom, ShotsFit, SetBack, Steady, Spends;
    trace, left := [s0], [disk.budget];
    ghost var s := s0;
    assert s == trace[0];
    var logger: GlobalLogger? := null;
    var k := 0;
    while k < |script|
      invariant 0 <= k <= |script| && |trace| == k + 1 && s == trace[k] && trace[0] == s0
      invariant Performs(trace, script, base) && Sound(s, base) && disk.m == s.m
      invariant |left| == k + 1 && left[k] == disk.budget && forall j | 0 <= j < k ::
                Spends(trace[j], left[j], script[j], trace[j + 1], left[j + 1], |base|)
      invariant (logger != null) == (s.mode != Off)
      invariant logger != null ==> fresh(logger) && logger.disk == disk && Live(s, logger)
    {
      outcome := Halts(disk, recMax, rotatePages, logger, script[k], s, base);
      if outcome != Finished {
        return;
      }
      logger, s := Perform(disk, recMax, rotatePages, logger, script[k], s, base);
      PerformsMore(trace, script, base, s);
      trace, left, k := trace + [s], left + [disk.budget], k + 1;
    }
    outcome := Finished;
  }

  /** Whether the run stops at this action. */
  method Halts(disk: Disk, recMax: nat, rotatePages: nat, logger: GlobalLogger?, a: Action, ghost s: State,
      ghost base: seq<Table>)
    returns (outcome: Outcome)
    requires Sound(s, base) && disk.m == s.m && 0 < recMax <= KEYROOM && (logger != null) == (s.mode != Off)
    requires logger != null ==> logger.disk == disk && Live(s, logger)
    ensures disk.m == old(disk.m) && disk.budget == old(disk.budget)
    ensures outcome == if a.Boot? then (if HasRoom(disk.m) then Finished else PageFull)
                       else if SetBack(s, a) then ClockBack else Finished
    ensures outcome == ClockBack ==> !Steady(s, a)
  {
    outcome := Finished;
    if a.Boot? {
      var full := IsFull(disk, recMax, rotatePages, s, base);
      if full { outcome := PageFull; }
    } else if logger != null && !logger.isOpen {
      var back := IsBack(logger, a, s, base);
      if back { outcome := ClockBack; }
    }
  }

  method IsFull(disk: Disk, recMax: nat, rotatePages: nat, ghost s: State, ghost base: seq<Table>)
    returns (full: bool)
    requires Sound(s, base) && disk.m == s.m && 0 < recMax <= KEYROOM
    ensures full == !HasRoom(disk.m)
  {
    Restartable(s, base);
    hide Sound, Rests, Recoverable, Formed, Shape, ShotsFit;
    var logger := new GlobalLogger(disk, |disk.m.files|, recMax, rotatePages, 0, EMPTY);
    logger.NewestKnown(s.st, Current(s), Pending(s, |base|), s.timely);
    full := logger.KeyFull();
  }

  method IsBack(logger: GlobalLogger, a: Action, ghost s: State, ghost base: seq<Table>) returns (back: bool)
    requires Sound(s, base) && a.Check? && s.mode == Reloaded && Live(s, logger)
    ensures back == SetBack(s, a) && (back ==> !Steady(s, a))
  {
    assert Rests(s.m, s.st, Current(s));
    AllLast(s.m, s.st, Current(s));
    Restartable(s, base);
    hide Sound, Rests, Recoverable, Formed, Shape, ShotsFit, Current;
    var t := logger.MaxLoggerId();
    assert t == Last(s.st);
    back := Tick(a.now, logger.timeStamp) <= t;
    if back { NeverBack(s, base, a); }
  }

  /** One action; `next` is the program that runs then. */
  method Perform(disk: Disk, recMax: nat, rotatePages: nat, logger: GlobalLogger?, a: Action, ghost s: State,
      ghost base: seq<Table>)
    returns (next: GlobalLogger?, ghost now: State)
    requires Sound(s, base) && disk.m == s.m && 0 < recMax <= KEYROOM && (logger != null) == (s.mode != Off)
    requires logger != null ==> logger.disk == disk && Live(s, logger)
    requires if a.Boot? then HasRoom(disk.m) else ShotsFit(a.shots, |base|) && !SetBack(s, a)
    modifies disk, logger
    ensures Sound(now, base) && disk.m == now.m && Moves(s, a, now) && (next != null) == (now.mode != Off)
    ensures Spends(s, old(disk.budget), a, now, disk.budget, |base|)
    ensures next != null ==> (next == logger || fresh(next)) && next.disk == disk && Live(now, next)
  {
    hide Sound, Moves, HasRoom, ShotsFit;
    next := null;
    if a.Boot? {
      var fresh_logger;
      fresh_logger, now := Power(disk, recMax, rotatePages, a, s, base);
      if disk.budget > 0 { next := fresh_logger; }
    } else if logger != null {
      var alive;
      LoggerSize(s, base, logger);
      alive, now := MakeCheckpoint(logger, a, s, base);
      if alive {
        CheckpointSpends(s, old(disk.budget), a, now, old(logger.Rotates(a.rotate)), old(logger.isOpen), disk.budget,
            |base|);
      } else {
        DeadSpends(s, disk.budget, a, now, |base|);
      }
      if alive && disk.budget > 0 { next := logger; }
    } else {
      now := CheckedDead(s, base, a);
    }
  }

  // ---------- restoring after a run ----------

  /** Checkpoints are only added. */
  lemma {:induction false} PastPrefix(trace: seq<State>, script: seq<Action>, base: seq<Table>, i: nat, j: nat)
    requires Performs(trace, script, base) && i <= j < |trace|
    ensures trace[i].past <= trace[j].past
    decreases j
  {
    hide Sound;
    if i < j {
      PastPrefix(trace, script, base, i, j - 1);
      assert Step(trace, script, j - 1);
    }
  }

  /** The table files between two checkpoints, if there was one before. */
  lemma FilesStand(s: State, base: seq<Table>)
    requires Sound(s, base) && s.under.Nothing? && s.timely && DateOf(s.st.recs) > 0
    ensures var top := s.past[|s.past| - 1]; StandAt(s.m.files, top.id, top.stamp, top.tables)
    ensures |base| > 0
  {
    hide Chron, Idle, AllStood, AllMarked, Complete, Rising, Naming;
    var top := s.past[|s.past| - 1];
    forall i | 0 <= i < |s.m.files|
      ensures s.m.files[i] == File(top.tables[i], top.id, top.stamp)
    {
      assert s.m.files[i].id == Last(s.st) && s.m.files[i].check == DateOf(s.st.recs);
    }
  }

  /** The log files of action j tell the checkpoints of action i too. */
  ghost predicate CopyKnown(trace: seq<State>, i: nat, j: nat) {
    && i <= j < |trace| && 0 < |trace[i].past| <= |trace[j].past| && |trace[j].st.cuts| == |trace[j].st.ids|
    && forall k {:trigger trace[j].past[k]} | 0 <= k < |trace[j].past| :: trace[j].past[k].file < |trace[j].st.ids|
  }

  /** The checkpoint that restore(t) on the table files of action i leads to with the log files of action j. */
  ghost function CopyReach(trace: seq<State>, i: nat, j: nat, t: nat): (r: nat)
    requires CopyKnown(trace, i, j)
    ensures |trace[i].past| - 1 <= r < |trace[j].past|
  {
    var k := |trace[i].past| - 1;
    Reach(trace[j].past, k, t, End(trace[j].st, trace[j].past[k].file))
  }

  /** Table files that were copied between two actions of a run with nothing under way, after some checkpoint, and the
      log files of any later such time: restore(t) gives the tables as they were at the last checkpoint of the run
      before t that the chain of log files leads to, or leaves them if that is not later. */
  method RestoreCopy(disk: Disk, recMax: nat, rotatePages: nat, t: nat, ghost trace: seq<State>,
      ghost script: seq<Action>, ghost base: seq<Table>, ghost i: nat, ghost j: nat)
    returns (ok: bool, times: seq<nat>)
    requires Performs(trace, script, base) && i <= j < |trace| && trace[i].under.Nothing? && trace[j].under.Nothing?
    requires trace[i].timely && trace[j].timely && DateOf(trace[i].st.recs) > 0
    requires disk.m == Media(trace[i].m.files, trace[j].m.logs) && 0 < recMax <= KEYROOM
    modifies disk
    ensures disk.m.logs == trace[j].m.logs && CopyKnown(trace, i, j)
    ensures disk.budget > 0 ==> TablesAre(disk.m.files, trace[j].past[CopyReach(trace, i, j, t)].tables)
    ensures var top := trace[j].past[|trace[i].past| - 1];
            times == Times(Until(trace[j].st, End(trace[j].st, top.file)).recs, top.stamp, Bound(top.stamp, t))
  {
    hide Performs, Recorded, Chron, StandAt, Reach, End, Shape, TablesAre, Times, DateOf, Last, LogAt, Apart, CopyKnown,
      Bound, Until;
    CopyMade(trace, script, base, i, j);
    ghost var pos;
    ghost var k := |trace[i].past| - 1;
    ok, times, pos := RestoreMoment(disk, recMax, rotatePages, t, trace[j].past, trace[j].st, base, k);
    CopyReachIs(trace, i, j, t);
  }

  lemma CopyReachIs(trace: seq<State>, i: nat, j: nat, t: nat)
    requires CopyKnown(trace, i, j)
    ensures 0 < |trace[i].past| <= |trace[j].past| && |trace[j].st.cuts| == |trace[j].st.ids|
    ensures trace[j].past[|trace[i].past| - 1].file < |trace[j].st.ids|
    ensures CopyReach(trace, i, j, t) == Reach(trace[j].past, |trace[i].past| - 1, t,
              End(trace[j].st, trace[j].past[|trace[i].past| - 1].file))
  {
  }

  /** That is the last checkpoint before t if and only if no log file between the two was begun without a chain, as the
      first checkpoint behind a redo begins it. */
  lemma CopyIff(trace: seq<State>, script: seq<Action>, base: seq<Table>, i: nat, j: nat, t: nat)
    requires Performs(trace, script, base) && i <= j < |trace| && trace[i].under.Nothing? && trace[j].under.Nothing?
    requires trace[i].timely && trace[j].timely && DateOf(trace[i].st.recs) > 0
    ensures CopyKnown(trace, i, j)
    ensures var (past, k) := (trace[j].past, |trace[i].past| - 1);
            CopyReach(trace, i, j, t) == Latest(past, k, t) <==>
            Uncut(trace[j].st, past[k].file, past[Latest(past, k, t)].file)
  {
    hide Performs, Recorded, Chron, StandAt, Reach, Latest, End, Shape, DateOf, Uncut, CopyKnown, Apart;
    CopyMade(trace, script, base, i, j);
    CopyReachIs(trace, i, j, t);
    ReachIff(trace[j].past, trace[j].st, base, |trace[i].past| - 1, t);
  }

  lemma CopyMade(trace: seq<State>, script: seq<Action>, base: seq<Table>, i: nat, j: nat)
    requires Performs(trace, script, base) && i <= j < |trace| && trace[i].under.Nothing? && trace[j].under.Nothing?
    requires trace[i].timely && trace[j].timely && DateOf(trace[i].st.recs) > 0
    ensures 0 < |trace[i].past| <= |trace[j].past| && |base| > 0 && CopyKnown(trace, i, j)
    ensures var mo := trace[j].past[|trace[i].past| - 1]; StandAt(trace[i].m.files, mo.id, mo.stamp, mo.tables)
    ensures Recorded(trace[j].past, trace[j].st, base) && Chron(trace[j].m.logs, |base|, trace[j].st)
    ensures Apart(trace[j].m.logs, trace[j].st) && Shape(trace[j].st)
  {
    assert Sound(trace[i], base) && Sound(trace[j], base);
    hide Performs, Sound, Chron, StandAt, Recorded, Apart, Shape, DateOf;
    PastPrefix(trace, script, base, i, j);
    FilesStand(trace[i], base);
    RestsChron(trace[i], base);
    RestsChron(trace[j], base);
    AllKnown(trace[j].past, trace[j].st, base);
    assert trace[j].past[|trace[i].past| - 1] == trace[i].past[|trace[i].past| - 1];
  }

  lemma AllKnown(past: seq<Moment>, st: Story, base: seq<Table>)
    requires Recorded(past, st, base) && Shape(st)
    ensures |past| > 0 && |st.cuts| == |st.ids|
    ensures forall k {:trigger past[k]} | 0 <= k < |past| :: past[k].file < |st.ids|
  {
    hide Parts, Before, Rising, Complete, Timely;
    forall k | 0 <= k < |past|
      ensures past[k].file < |st.ids|
    {
      assert Stood(past[k], st, base);
    }
  }

  lemma RestsChron(s: State, base: seq<Table>)
    requires Sound(s, base) && s.under.Nothing? && s.timely
    ensures |s.past| > 0 && Recorded(s.past, s.st, base) && Chron(s.m.logs, |base|, s.st)
    ensures Apart(s.m.logs, s.st) && Shape(s.st)
  {
  }

  /** The first checkpoint behind a redo cannot be reached from any copy made before. */
  lemma RedoCuts(trace: seq<State>, script: seq<Action>, base: seq<Table>, i: nat, j: nat, t: nat)
    requires Performs(trace, script, base) && i <= j && j + 1 < |trace| && trace[i].under.Nothing? && trace[i].timely
    requires DateOf(trace[i].st.recs) > 0 && script[j].Check? && trace[j].mode == Reloaded
    requires trace[j + 1].mode == Ready && trace[j + 1].timely
    requires |trace[j + 1].past| > 0 && t > trace[j + 1].past[|trace[j + 1].past| - 1].stamp
    ensures CopyKnown(trace, i, j + 1)
    ensures Latest(trace[j + 1].past, |trace[i].past| - 1, t) == |trace[j + 1].past| - 1
    ensures CopyReach(trace, i, j + 1, t) < |trace[j + 1].past| - 1
  {
    hide Performs, Recorded, Chron, StandAt, Reach, Sound, Shape, DateOf, Moves, Apart, CopyKnown, CopyReach, End,
      Uncut;
    StepAt(trace, script, base, j);
    MovesCut(trace[j], script[j], trace[j + 1]);
    PastPrefix(trace, script, base, i, j);
    CopyMade(trace, script, base, i, j + 1);
    CutTop(trace[j], trace[j + 1], base, |trace[i].past| - 1);
    CopyIff(trace, script, base, i, j + 1, t);
  }

  lemma StepAt(trace: seq<State>, script: seq<Action>, base: seq<Table>, j: nat)
    requires Performs(trace, script, base) && j + 1 < |trace|
    ensures j < |script| && Moves(trace[j], script[j], trace[j + 1])
    ensures Sound(trace[j], base) && Sound(trace[j + 1], base)
  {
    hide Sound, Moves;
    assert Step(trace, script, j);
  }

  lemma MovesCut(s: State, a: Action, now: State)
    requires Moves(s, a, now) && a.Check? && s.mode == Reloaded && now.mode == Ready && now.timely
    ensures now.st.cuts == s.st.cuts + [true] && s.timely && now.under.Nothing?
    ensures |now.past| == |s.past| + 1 && now.past[..|s.past|] == s.past
  {
  }

  lemma CutTop(s: State, now: State, base: seq<Table>, k: nat)
    requires Sound(s, base) && s.mode == Reloaded && s.timely && Sound(now, base) && now.under.Nothing? && now.timely
    requires now.st.cuts == s.st.cuts + [true] && k < |s.past|
    requires |now.past| == |s.past| + 1 && now.past[..|s.past|] == s.past
    ensures !Uncut(now.st, now.past[k].file, now.past[|now.past| - 1].file)
  {
    assert s.under.Nothing?;
    hide Sound;
    TopFile(now, base);
    OlderFiles(s, base, k);
    assert now.past[k] == s.past[k];
    assert now.st.cuts[|s.st.cuts|];
  }

  /** The last checkpoint is in the last log file of the story. */
  lemma TopFile(s: State, base: seq<Table>)
    requires Sound(s, base) && s.under.Nothing? && s.timely
    ensures |s.past| > 0 && |s.st.cuts| == |s.st.ids| && s.past[|s.past| - 1].file == |s.st.ids| - 1
  {
    hide Parts, Before, Complete, Rising, AllMarked, Naming, Within, Chain, AllTold, Formed, Below, Loose;
    assert Shape(s.st) && Stood(s.past[|s.past| - 1], s.st, base);
    LastIn(s.st, s.past[|s.past| - 1].file);
  }

  lemma OlderFiles(s: State, base: seq<Table>, k: nat)
    requires Sound(s, base) && s.under.Nothing? && s.timely && k < |s.past|
    ensures |s.st.cuts| == |s.st.ids| && s.past[k].file < |s.st.ids|
  {
    hide Parts, Before, Complete, Rising, AllMarked, Naming, Within, Chain, AllTold, Formed, Below, Loose;
    assert Shape(s.st) && Stood(s.past[k], s.st, base);
  }
}
