/** The records of chained log files of `GlobalLogger` in `znet/common/db.h`: what was committed when, how the single
    writes keep it, and what replaying it gives. */
module LogReplay {
  import opened CheckpointModel

  datatype Rec = Rec(stamp: nat, result: Result, shots: seq<seq<LogPage>>)

  /** What a table without a span reads as; no snapshot looks like this. */
  const NOSHOT := [LogPage(1, [])]

  function PageAt(log: Log, k: nat): LogPage {
    if k in log.data then log.data[k] else LogPage(0, [])
  }

  /** The saved pages of table i in record `rec`. */
  function ShotOf(log: Log, i: nat, rec: nat): seq<LogPage> {
    var span := SpanOf(if i in log.info then log.info[i] else map[], rec);
    if 0 < span.first <= span.last then
      seq(span.last - span.first, k requires 0 <= k < span.last - span.first => PageAt(log, span.first + k))
    else NOSHOT
  }

  function ShotsOf(log: Log, n: nat, rec: nat): seq<seq<LogPage>> {
    seq(n, i requires 0 <= i < n => ShotOf(log, i, rec))
  }

  /** A finished record; what an aborted one saved does not matter. */
  function RecOf(log: Log, n: nat, rec: nat): Rec {
    var item := ItemOf(log.key, rec);
    Rec(item.stamp, item.result, if item.result == Commit then ShotsOf(log, n, rec) else [])
  }

  // ---------- the records of a chain of log files ----------

  /** Which log files there are, at which place of `recs` the records of each begin, all finished records, and which
      files were begun without a chain from the one before. */
  datatype Story = Story(ids: seq<nat>, starts: seq<nat>, recs: seq<Rec>, cuts: seq<bool>)

  function Last(st: Story): nat { if st.ids == [] then 0 else st.ids[|st.ids| - 1] }

  /** Every snapshot is as snapshot_create() makes it. */
  ghost predicate ShotsFit(shots: seq<seq<LogPage>>, n: nat) {
    |shots| == n && forall i {:trigger shots[i]} | 0 <= i < n :: ShotOK(shots[i])
  }

  /** Committed records carry a time and fit the tables, others carry none. */
  ghost predicate Formed(recs: seq<Rec>, n: nat) {
    && (forall i {:trigger recs[i]} | 0 <= i < |recs| :: recs[i].result == Commit <==> recs[i].stamp > 0)
    && forall i {:trigger recs[i]} | 0 <= i < |recs| && recs[i].result == Commit :: ShotsFit(recs[i].shots, n)
  }

  /** The times of committed records grow. */
  ghost predicate Timely(recs: seq<Rec>) {
    forall i, j {:trigger recs[i], recs[j]} | 0 <= i < j < |recs| && recs[i].result == recs[j].result == Commit ::
      recs[i].stamp < recs[j].stamp
  }

  ghost predicate Ordered(recs: seq<Rec>, n: nat) { Formed(recs, n) && Timely(recs) }

  /** The time of the last commit. */
  function DateOf(recs: seq<Rec>): nat {
    if recs == [] then 0
    else if recs[|recs| - 1].result == Commit then recs[|recs| - 1].stamp
    else DateOf(recs[..|recs| - 1])
  }

  /** A log file that init_log_file() completed. */
  ghost predicate Inited(log: Log, n: nat) {
    log.key.last > 0 && forall i: nat | i < n :: i in log.info
  }

  /** The finished records of a log file are those at the places a .. b. */
  ghost predicate Tells(log: Log, n: nat, recs: seq<Rec>, a: nat, b: nat) {
    && Inited(log, n) && a + log.key.cur == b <= |recs|
    && forall j: nat {:trigger RecOf(log, n, j)} | j < log.key.cur :: recs[a + j] == RecOf(log, n, j)
  }

  /** What the committed records saved lies in front of the free pages. */
  ghost predicate Below(log: Log, n: nat) {
    forall i: nat, j: nat {:trigger SpanOf(log.info[i], j)} | i < n && i in log.info && j < log.key.cur
        && ItemOf(log.key, j).result == Commit ::
      SpanOf(log.info[i], j).last <= log.key.last
  }

  ghost predicate Shape(st: Story) {
    && |st.ids| > 0 && |st.starts| == |st.ids| + 1 && st.starts[0] == 0 && st.starts[|st.ids|] == |st.recs|
    && |st.cuts| == |st.ids|
    && (forall i, j {:trigger st.starts[i], st.starts[j]} | 0 <= i < j < |st.starts| :: st.starts[i] <= st.starts[j])
    && forall i, j {:trigger st.ids[i], st.ids[j]} | 0 <= i < j < |st.ids| :: st.ids[i] < st.ids[j]
  }

  /** File k names the next one, unless that was begun without a chain. */
  ghost predicate Follows(logs: map<nat, Log>, st: Story, k: int) {
    && 0 <= k < |st.ids| - 1 && |st.cuts| == |st.ids| && st.ids[k] in logs
    && var chain := logs[st.ids[k]].key.chain;
       if st.cuts[k + 1] then (chain == 0 || chain > st.ids[k]) && chain != st.ids[k + 1] else chain == st.ids[k + 1]
  }

  ghost predicate Chain(logs: map<nat, Log>, st: Story) {
    && (forall k {:trigger st.ids[k]} | 0 <= k < |st.ids| :: 0 < st.ids[k] && st.ids[k] in logs)
    && forall k {:trigger Follows(logs, st, k)} | 0 <= k < |st.ids| - 1 :: Follows(logs, st, k)
  }

  ghost predicate AllTold(logs: map<nat, Log>, n: nat, st: Story) {
    |st.starts| == |st.ids| + 1 &&
    forall k {:trigger st.ids[k]} | 0 <= k < |st.ids| ::
        st.ids[k] in logs && Tells(logs[st.ids[k]], n, st.recs, st.starts[k], st.starts[k + 1])
  }

  /** Log files that no table has ever named have no finished record. */
  ghost predicate Loose(logs: map<nat, Log>, st: Story) {
    forall t {:trigger t in logs} | t in logs && t !in st.ids && |st.ids| > 0 && t > st.ids[0] ::
      logs[t].key.cur == 0 && logs[t].key.chain == 0
  }

  /** The log files tell the story, and the last of them can take more. */
  ghost predicate Chron(logs: map<nat, Log>, n: nat, st: Story) {
    && Shape(st) && Chain(logs, st) && AllTold(logs, n, st) && Formed(st.recs, n) && Last(st) in logs
    && Loose(logs, st) && Below(logs[Last(st)], n)
    && (logs[Last(st)].key.chain == 0 || logs[Last(st)].key.chain > Last(st))
  }

  /** The story goes on in file L, which was begun with or without a chain to it. */
  ghost function Moved(st: Story, L: nat, cut: bool): Story {
    if L == Last(st) then st else Story(st.ids + [L], st.starts + [|st.recs|], st.recs, st.cuts + [cut])
  }

  ghost function Told(st: Story, rec: Rec): Story
    requires |st.starts| == |st.ids| + 1
  {
    Story(st.ids, st.starts[|st.ids| := |st.recs| + 1], st.recs + [rec], st.cuts)
  }

  ghost function Grown(st: Story, L: nat, cut: bool, rec: Rec): Story
    requires |st.starts| == |st.ids| + 1
  {
    Told(Moved(st, L, cut), rec)
  }

  ghost function Aborted(st: Story): Story
    requires |st.starts| == |st.ids| + 1
  {
    Told(st, Rec(0, Abort, []))
  }

  /** File L is the last one of the story, or follows it. */
  ghost predicate Joined(logs: map<nat, Log>, F: nat, L: nat, cut: bool) {
    L == F || (F < L && F in logs && L in logs && cut == (logs[F].key.chain != L))
  }

  // ---------- what a write leaves ----------

  /** The finished records are the same. */
  ghost predicate SameRecs(log: Log, now: Log, n: nat) {
    now.key.cur == log.key.cur && now.key.last >= log.key.last && now.info.Keys == log.info.Keys
        && forall j: nat {:trigger RecOf(now, n, j)} | j < log.key.cur :: RecOf(now, n, j) == RecOf(log, n, j)
  }

  lemma LastIn(st: Story, k: nat)
    requires Shape(st) && k < |st.ids|
    ensures st.ids[k] <= Last(st) && (st.ids[k] == Last(st) ==> k == |st.ids| - 1)
    ensures Last(st) in st.ids && st.ids[0] <= Last(st)
  {
  }

  lemma NotInStory(st: Story, t: nat)
    requires Shape(st) && t > Last(st)
    ensures t !in st.ids && t > st.ids[0]
  {
    if t in st.ids {
      var k :| 0 <= k < |st.ids| && st.ids[k] == t;
      LastIn(st, k);
    }
    LastIn(st, 0);
  }

  /** A file that no table names may be written as long as it finishes no record. */
  lemma ChronLoose(logs: map<nat, Log>, n: nat, st: Story, t: nat, log: Log)
    requires Chron(logs, n, st) && t > Last(st) && log.key.cur == 0 && log.key.chain == 0
    ensures Chron(logs[t := log], n, st)
  {
    var now := logs[t := log];
    hide Tells, Formed, Below;
    forall k | 0 <= k < |st.ids| ensures st.ids[k] != t { LastIn(st, k); }
    assert AllTold(now, n, st);
    assert Chain(now, st) by {
      forall k | 0 <= k < |st.ids| - 1 ensures Follows(now, st, k) { assert Follows(logs, st, k); }
    }
  }

  lemma TellsSame(log: Log, now: Log, n: nat, recs: seq<Rec>, a: nat, b: nat)
    requires Tells(log, n, recs, a, b) && SameRecs(log, now, n)
    ensures Tells(now, n, recs, a, b)
  {
    hide RecOf;
    forall j: nat | j < now.key.cur
      ensures recs[a + j] == RecOf(now, n, j)
    {
      assert RecOf(log, n, j) == RecOf(now, n, j);
    }
  }

  lemma TellsMore(log: Log, n: nat, recs: seq<Rec>, a: nat, b: nat, rec: Rec)
    requires Tells(log, n, recs, a, b)
    ensures Tells(log, n, recs + [rec], a, b)
  {
    hide RecOf;
    forall j: nat | j < log.key.cur
      ensures (recs + [rec])[a + j] == RecOf(log, n, j)
    {
      assert recs[a + j] == RecOf(log, n, j);
    }
  }

  lemma TellsNew(log: Log, now: Log, n: nat, recs: seq<Rec>, a: nat, rec: Rec)
    requires now.info == log.info && now.key.last >= log.key.last && Tells(log, n, recs, a, |recs|)
             && now.key.cur == log.key.cur + 1 && RecOf(now, n, log.key.cur) == rec
    requires forall j: nat {:trigger RecOf(now, n, j)} | j < log.key.cur :: RecOf(now, n, j) == RecOf(log, n, j)
    ensures Tells(now, n, recs + [rec], a, |recs| + 1)
  {
    hide RecOf;
    forall j: nat | j < now.key.cur
      ensures (recs + [rec])[a + j] == RecOf(now, n, j)
    {
      if j < log.key.cur { assert recs[a + j] == RecOf(log, n, j) && RecOf(log, n, j) == RecOf(now, n, j); }
    }
  }

  lemma ToldAt(logs: map<nat, Log>, n: nat, st: Story, k: nat)
    requires AllTold(logs, n, st) && k < |st.ids|
    ensures st.ids[k] in logs && Tells(logs[st.ids[k]], n, st.recs, st.starts[k], st.starts[k + 1])
  {
    assert st.ids[k] == st.ids[k];
  }

  lemma ChainSame(logs: map<nat, Log>, st: Story, log: Log)
    requires Shape(st) && Chain(logs, st)
    ensures Chain(logs[Last(st) := log], st)
  {
    var now := logs[Last(st) := log];
    forall k | 0 <= k < |st.ids| - 1
      ensures Follows(now, st, k)
    {
      LastIn(st, k);
      assert Follows(logs, st, k);
    }
  }

  lemma LooseSame(logs: map<nat, Log>, st: Story, log: Log)
    requires Shape(st) && Loose(logs, st)
    ensures Loose(logs[Last(st) := log], st)
  {
    LastIn(st, 0);
  }

  /** The last file may be written as long as its finished records stay. */
  lemma ChronLast(logs: map<nat, Log>, n: nat, st: Story, log: Log)
    requires Chron(logs, n, st) && SameRecs(logs[Last(st)], log, n) && Below(log, n)
    requires log.key.chain == 0 || log.key.chain > Last(st)
    ensures Chron(logs[Last(st) := log], n, st)
  {
    var C, now := Last(st), logs[Last(st) := log];
    ChainSame(logs, st, log);
    LooseSame(logs, st, log);
    hide Formed, Below, Tells, SameRecs, Chain, Loose;
    forall k | 0 <= k < |st.ids|
      ensures st.ids[k] in now && Tells(now[st.ids[k]], n, st.recs, st.starts[k], st.starts[k + 1])
    {
      ToldAt(logs, n, st, k);
      if st.ids[k] == C { TellsSame(logs[C], log, n, st.recs, st.starts[k], st.starts[k + 1]); }
    }
  }

  lemma LooseTold(logs: map<nat, Log>, st: Story, rec: Rec)
    requires Shape(st) && Loose(logs, st)
    ensures Loose(logs, Told(st, rec))
  {
  }

  lemma ShapeTold(st: Story, rec: Rec)
    requires Shape(st)
    ensures Shape(Told(st, rec)) && Last(Told(st, rec)) == Last(st)
  {
  }

  lemma ChainTold(logs: map<nat, Log>, st: Story, rec: Rec)
    requires Shape(st) && Chain(logs, st)
    ensures Chain(logs, Told(st, rec))
  {
    var z := Told(st, rec);
    forall k | 0 <= k < |z.ids| - 1 ensures Follows(logs, z, k) { assert Follows(logs, st, k); }
  }

  lemma NewTold(logs: map<nat, Log>, n: nat, st: Story, log: Log, rec: Rec)
    requires Shape(st) && AllTold(logs, n, st) && Last(st) in logs && log.key.cur == logs[Last(st)].key.cur + 1
             && log.info == logs[Last(st)].info && log.key.last >= logs[Last(st)].key.last
    requires forall j: nat {:trigger RecOf(log, n, j)} | j < logs[Last(st)].key.cur ::
             RecOf(log, n, j) == RecOf(logs[Last(st)], n, j)
    requires RecOf(log, n, logs[Last(st)].key.cur) == rec
    ensures AllTold(logs[Last(st) := log], n, Told(st, rec))
  {
    var C, now, z := Last(st), logs[Last(st) := log], Told(st, rec);
    hide Tells, RecOf;
    forall k | 0 <= k < |z.ids|
      ensures z.ids[k] in now && Tells(now[z.ids[k]], n, z.recs, z.starts[k], z.starts[k + 1])
    {
      LastIn(st, k);
      ToldAt(logs, n, st, k);
      if k == |st.ids| - 1 {
        TellsNew(logs[C], log, n, st.recs, st.starts[k], rec);
      } else {
        TellsMore(logs[st.ids[k]], n, st.recs, st.starts[k], st.starts[k + 1], rec);
      }
    }
  }

  /** The last file finishes one more record. */
  lemma ChronClose(logs: map<nat, Log>, n: nat, st: Story, log: Log, rec: Rec)
    requires Chron(logs, n, st) && log.key.cur == logs[Last(st)].key.cur + 1
             && log.key.chain == logs[Last(st)].key.chain
    requires log.info == logs[Last(st)].info && log.key.last >= logs[Last(st)].key.last
    requires forall j: nat {:trigger RecOf(log, n, j)} | j < logs[Last(st)].key.cur ::
             RecOf(log, n, j) == RecOf(logs[Last(st)], n, j)
    requires RecOf(log, n, logs[Last(st)].key.cur) == rec && Below(log, n) && Formed(st.recs + [rec], n)
    ensures Chron(logs[Last(st) := log], n, Told(st, rec)) && Last(Told(st, rec)) == Last(st)
  {
    NewTold(logs, n, st, log, rec);
    ChainSame(logs, st, log);
    ChainTold(logs[Last(st) := log], st, rec);
    LooseSame(logs, st, log);
    LooseTold(logs[Last(st) := log], st, rec);
    ShapeTold(st, rec);
    hide Formed, Below, RecOf, AllTold, Chain, Loose, Shape;
  }

  lemma ShapeMoved(st: Story, L: nat, cut: bool)
    requires Shape(st) && L >= Last(st)
    ensures Shape(Moved(st, L, cut)) && Last(Moved(st, L, cut)) == L && Moved(st, L, cut).recs == st.recs
  {
    forall i: nat | i < |st.ids| ensures st.ids[i] <= Last(st) { LastIn(st, i); }
    var z := Moved(st, L, cut);
    forall i, j | 0 <= i < j < |z.starts|
      ensures z.starts[i] <= z.starts[j]
    {
      if i < |st.starts| - 1 { assert st.starts[i] <= st.starts[|st.starts| - 1]; }
    }
  }

  lemma ToldMoved(logs: map<nat, Log>, n: nat, st: Story, L: nat, cut: bool)
    requires Shape(st) && AllTold(logs, n, st) && L > Last(st)
    requires L in logs && Inited(logs[L], n) && logs[L].key.cur == 0
    ensures AllTold(logs, n, Moved(st, L, cut))
  {
    var z := Moved(st, L, cut);
    hide RecOf;
    forall k | 0 <= k < |z.ids|
      ensures z.ids[k] in logs && Tells(logs[z.ids[k]], n, z.recs, z.starts[k], z.starts[k + 1])
    {
      if k < |st.ids| { ToldAt(logs, n, st, k); }
    }
  }

  lemma ChainMoved(logs: map<nat, Log>, st: Story, L: nat, cut: bool)
    requires Shape(st) && Chain(logs, st) && L > Last(st) && L in logs && Joined(logs, Last(st), L, cut)
    requires logs[Last(st)].key.chain == 0 || logs[Last(st)].key.chain > Last(st)
    ensures Chain(logs, Moved(st, L, cut))
  {
    var z := Moved(st, L, cut);
    forall k | 0 <= k < |z.ids| - 1
      ensures Follows(logs, z, k)
    {
      if k < |st.ids| - 1 { assert Follows(logs, st, k); }
    }
  }

  /** The story goes on in the next file. */
  lemma ChronMoves(logs: map<nat, Log>, n: nat, st: Story, L: nat, cut: bool)
    requires Chron(logs, n, st) && Joined(logs, Last(st), L, cut) && (L in logs ==> Inited(logs[L], n))
    ensures Chron(logs, n, Moved(st, L, cut)) && Last(Moved(st, L, cut)) == L && Moved(st, L, cut).recs == st.recs
  {
    if L != Last(st) {
      NotInStory(st, L);
      assert logs[L].key.cur == 0 && logs[L].key.chain == 0;
      ShapeMoved(st, L, cut);
      ToldMoved(logs, n, st, L, cut);
      ChainMoved(logs, st, L, cut);
      assert Below(logs[L], n);
      LooseMoved(logs, st, L, cut);
      hide Formed, AllTold, Chain, Below, Loose, Shape;
    }
  }

  lemma LooseMoved(logs: map<nat, Log>, st: Story, L: nat, cut: bool)
    requires Shape(st) && Loose(logs, st)
    ensures Loose(logs, Moved(st, L, cut))
  {
  }

  // ---------- what replaying means ----------

  /** The tables after every checkpoint in `recs` that was committed before time b. */
  ghost function Before(tables: seq<Table>, recs: seq<Rec>, b: nat): seq<Table> {
    if recs == [] then tables
    else
      var r := recs[|recs| - 1];
      var t := Before(tables, recs[..|recs| - 1], b);
      if r.result == Commit && r.stamp < b && |t| == |r.shots| then News(t, r.shots) else t
  }

  lemma {:induction false} BeforeSize(tables: seq<Table>, recs: seq<Rec>, b: nat)
    ensures |Before(tables, recs, b)| == |tables|
  {
    if recs != [] { BeforeSize(tables, recs[..|recs| - 1], b); }
  }

  /** Records outside the interval between two bounds do not tell the bounds apart. */
  lemma {:induction false} SameBounds(tables: seq<Table>, recs: seq<Rec>, a: nat, b: nat)
    requires forall k {:trigger recs[k]} | 0 <= k < |recs| && recs[k].result == Commit ::
             recs[k].stamp < a <==> recs[k].stamp < b
    ensures Before(tables, recs, a) == Before(tables, recs, b)
  {
    if recs != [] { SameBounds(tables, recs[..|recs| - 1], a, b); }
  }

  /** Records from place i on that lie at or behind the bound change nothing. */
  lemma {:induction false} Rest(tables: seq<Table>, recs: seq<Rec>, i: nat, b: nat)
    requires i <= |recs|
    requires forall k {:trigger recs[k]} | i <= k < |recs| && recs[k].result == Commit :: recs[k].stamp >= b
    ensures Before(tables, recs, b) == Before(tables, recs[..i], b)
    decreases |recs|
  {
    if i < |recs| {
      Rest(tables, recs[..|recs| - 1], i, b);
      assert recs[..|recs| - 1][..i] == recs[..i];
    } else {
      assert recs[..i] == recs;
    }
  }

  /** The times of the checkpoints between two bounds. */
  ghost function Times(recs: seq<Rec>, last: nat, b: nat): seq<nat> {
    if recs == [] then []
    else
      var r := recs[|recs| - 1];
      Times(recs[..|recs| - 1], last, b) + if r.result == Commit && last < r.stamp < b then [r.stamp] else []
  }

  /** They are the times of the committed records between the bounds, in the order of the records. */
  lemma {:induction false} TimesTell(recs: seq<Rec>, last: nat, b: nat, x: nat)
    ensures x in Times(recs, last, b) <==>
            exists k {:trigger recs[k]} ::
              0 <= k < |recs| && recs[k].result == Commit && recs[k].stamp == x && last < x < b
    decreases |recs|
  {
    if recs != [] {
      var front := recs[..|recs| - 1];
      TimesTell(front, last, b, x);
      if k :| 0 <= k < |recs| && recs[k].result == Commit && recs[k].stamp == x && last < x < b {
        assert k < |front| ==> front[k] == recs[k];
      }
      if x in Times(front, last, b) {
        var k :| 0 <= k < |front| && front[k].result == Commit && front[k].stamp == x && last < x < b;
        assert recs[k] == front[k];
      }
    }
  }

  lemma {:induction false} TimesAscend(recs: seq<Rec>, n: nat, last: nat, b: nat)
    requires Ordered(recs, n)
    ensures forall i, j | 0 <= i < j < |Times(recs, last, b)| :: Times(recs, last, b)[i] < Times(recs, last, b)[j]
    decreases |recs|
  {
    if recs != [] {
      var front, r := recs[..|recs| - 1], recs[|recs| - 1];
      TimesAscend(front, n, last, b);
      if r.result == Commit && last < r.stamp < b {
        forall x | x in Times(front, last, b)
          ensures x < r.stamp
        {
          TimesTell(front, last, b, x);
          var k :| 0 <= k < |front| && front[k].result == Commit && front[k].stamp == x && last < x < b;
          assert recs[k] == front[k];
        }
        var s := Times(front, last, b);
        assert Times(recs, last, b) == s + [r.stamp];
        forall i, j | 0 <= i < j < |s + [r.stamp]|
          ensures (s + [r.stamp])[i] < (s + [r.stamp])[j]
        {
          if j == |s| { assert s[i] in s; }
        }
      }
    }
  }

  lemma {:induction false} NoTimes(recs: seq<Rec>, i: nat, last: nat, b: nat)
    requires i <= |recs|
    requires forall k {:trigger recs[k]} | i <= k < |recs| && recs[k].result == Commit ::
             recs[k].stamp <= last || recs[k].stamp >= b
    ensures Times(recs, last, b) == Times(recs[..i], last, b)
    decreases |recs|
  {
    if i < |recs| {
      NoTimes(recs[..|recs| - 1], i, last, b);
      assert recs[..|recs| - 1][..i] == recs[..i];
    } else {
      assert recs[..i] == recs;
    }
  }

  // ---------- restore ----------

  /** Records in front of this time are those that tables at time `last` have, and all others before t. */
  function Bound(last: nat, t: nat): nat { if t > last then t else last + 1 }

  /** Records in front of place pos are not later than `last`, committed ones from there on are. */
  ghost predicate Parts(recs: seq<Rec>, pos: nat, last: nat) {
    && pos <= |recs| && (forall k {:trigger recs[k]} | 0 <= k < pos :: recs[k].stamp <= last)
    && forall k {:trigger recs[k]} | pos <= k < |recs| && recs[k].result == Commit :: recs[k].stamp > last
  }

  /** The next committed record parts the records too. */
  lemma PartsNext(recs: seq<Rec>, n: nat, pos: nat, d: nat)
    requires Parts(recs, pos, d) && Ordered(recs, n) && pos < |recs| && recs[pos].result == Commit
    ensures ShotsFit(recs[pos].shots, n) && Parts(recs, pos + 1, recs[pos].stamp) && d < recs[pos].stamp
  {
  }

  /** What stands at the checkpoint of time d stands at the next one when that record is applied. */
  lemma Applied(base: seq<Table>, recs: seq<Rec>, n: nat, pos: nat, d: nat)
    requires Parts(recs, pos, d) && Ordered(recs, n) && |base| == n && pos < |recs| && recs[pos].result == Commit
    ensures ShotsFit(recs[pos].shots, n) && |Before(base, recs, d + 1)| == n
    ensures Before(base, recs, recs[pos].stamp + 1) == News(Before(base, recs, d + 1), recs[pos].shots)
  {
    var r := recs[pos].stamp;
    PartsNext(recs, n, pos, d);
    hide Ordered, News;
    var front := recs[..pos + 1];
    assert front[..pos] == recs[..pos] && front[pos] == recs[pos];
    BeforeSize(base, recs, d + 1);
    Rest(base, recs, pos, d + 1);
    Rest(base, recs, pos + 1, r + 1);
    SameBounds(base, recs[..pos], d + 1, r + 1);
  }

  lemma TimesFront(recs: seq<Rec>, pos: nat, last: nat, b: nat)
    requires pos < |recs|
    ensures Times(recs[..pos + 1], last, b) ==
            Times(recs[..pos], last, b) + if recs[pos].result == Commit && last < recs[pos].stamp < b
                then [recs[pos].stamp] else []
  {
    var front := recs[..pos + 1];
    assert front[..pos] == recs[..pos] && front[pos] == recs[pos];
  }

  /** Nothing behind place pos is in time, up to d or up to the record there. */
  lemma TimesHere(recs: seq<Rec>, n: nat, pos: nat, last: nat, d: nat)
    requires Parts(recs, pos, d) && Ordered(recs, n) && pos < |recs| && recs[pos].result == Commit
    ensures Times(recs, last, d + 1) == Times(recs[..pos], last, d + 1)
    ensures Times(recs, last, recs[pos].stamp + 1) == Times(recs[..pos + 1], last, recs[pos].stamp + 1)
  {
    hide Times, ShotsFit;
    NoTimes(recs, pos, last, d + 1);
    NoTimes(recs, pos + 1, last, recs[pos].stamp + 1);
  }

  /** Everything in front of place pos is in time. */
  lemma TimesThere(recs: seq<Rec>, n: nat, pos: nat, last: nat, d: nat)
    requires Parts(recs, pos, d) && Ordered(recs, n) && pos < |recs| && recs[pos].result == Commit
    ensures d < recs[pos].stamp
    ensures Times(recs[..pos], last, d + 1) == Times(recs[..pos], last, recs[pos].stamp + 1)
  {
    PartsNext(recs, n, pos, d);
    hide Times, Ordered;
    SameTimes(recs[..pos], last, d + 1, recs[pos].stamp + 1);
  }

  lemma AppliedTimes(recs: seq<Rec>, n: nat, pos: nat, last: nat, d: nat)
    requires Parts(recs, pos, d) && Ordered(recs, n) && pos < |recs| && recs[pos].result == Commit && last <= d
    ensures Times(recs, last, recs[pos].stamp + 1) == Times(recs, last, d + 1) + [recs[pos].stamp]
  {
    hide Ordered, Times, Parts;
    TimesHere(recs, n, pos, last, d);
    TimesThere(recs, n, pos, last, d);
    TimesFront(recs, pos, last, recs[pos].stamp + 1);
  }

  lemma {:induction false} SameTimes(recs: seq<Rec>, last: nat, a: nat, b: nat)
    requires forall k {:trigger recs[k]} | 0 <= k < |recs| && recs[k].result == Commit ::
             recs[k].stamp < a <==> recs[k].stamp < b
    ensures Times(recs, last, a) == Times(recs, last, b)
  {
    if recs != [] { SameTimes(recs[..|recs| - 1], last, a, b); }
  }

  lemma Passed(recs: seq<Rec>, n: nat, pos: nat, d: nat)
    requires Parts(recs, pos, d) && Ordered(recs, n) && pos < |recs| && recs[pos].result != Commit
    ensures Parts(recs, pos + 1, d)
  {
  }

  /** Where the next record is not earlier than t, and behind all records, the replay is complete. */
  lemma Completed(base: seq<Table>, recs: seq<Rec>, n: nat, pos: nat, last: nat, d: nat, t: nat)
    requires Parts(recs, pos, d) && Ordered(recs, n) && (pos < |recs| ==> recs[pos].stamp >= t) && last <= d
             && (d == last || d < t)
    ensures Before(base, recs, d + 1) == Before(base, recs, Bound(last, t))
    ensures Times(recs, last, d + 1) == Times(recs, last, Bound(last, t))
  {
    forall k {:trigger recs[k]} | pos <= k < |recs| && recs[k].result == Commit
      ensures recs[k].stamp >= t && recs[k].stamp > d
    {
      if pos < k && recs[pos].stamp > 0 { assert recs[pos].result == Commit; }
    }
    hide Ordered;
    var b := Bound(last, t);
    forall k {:trigger recs[k]} | 0 <= k < |recs| && recs[k].result == Commit
      ensures recs[k].stamp < d + 1 <==> recs[k].stamp < b
    {
    }
    SameBounds(base, recs, d + 1, b);
    SameTimes(recs, last, d + 1, b);
  }

  /** A record of file k of the story. */
  lemma RecordAt(logs: map<nat, Log>, n: nat, st: Story, k: nat, it: nat)
    requires Shape(st) && AllTold(logs, n, st) && k < |st.ids| && it < logs[st.ids[k]].key.cur
    ensures st.starts[k] + logs[st.ids[k]].key.cur == st.starts[k + 1] <= |st.recs|
            && st.recs[st.starts[k] + it] == RecOf(logs[st.ids[k]], n, it)
  {
    ToldAt(logs, n, st, k);
  }

  /** The chain from file f on leads through the rest of the story, and ends there: the last file names none, an empty
      one, or one that was never made. */
  ghost predicate ReadChain(logs: map<nat, Log>, n: nat, st: Story, f: nat) {
    && Shape(st) && Chain(logs, st) && AllTold(logs, n, st) && Formed(st.recs, n) && Last(st) in logs
    && (forall k {:trigger st.cuts[k]} | f < k < |st.ids| :: !st.cuts[k])
    && var next := logs[Last(st)].key.chain;
       next == 0 || next !in logs || (logs[next].key.cur == 0 && logs[next].key.chain == 0)
  }

  /** What comes behind file k. */
  lemma NextFile(logs: map<nat, Log>, n: nat, st: Story, f: nat, k: nat)
    requires ReadChain(logs, n, st, f) && f <= k < |st.ids|
    ensures st.ids[k] in logs && st.starts[k] + logs[st.ids[k]].key.cur == st.starts[k + 1] <= |st.recs|
    ensures var next := logs[st.ids[k]].key.chain;
            if k + 1 < |st.ids| then next == st.ids[k + 1] && next > 0 && next in logs
            else
              && st.starts[k + 1] == |st.recs|
              && (next in logs && next != 0 ==> logs[next].key.cur == 0 && logs[next].key.chain == 0)
  {
    ToldAt(logs, n, st, k);
    hide Tells, Formed;
    if k + 1 < |st.ids| {
      assert Follows(logs, st, k);
      assert 0 < st.ids[k + 1] && st.ids[k + 1] in logs;
    } else {
      assert st.ids[k] == Last(st);
    }
  }

  // ---------- a restore that was stopped ----------

  /** The pages of one record were written to the tables up to somewhere in table i. */
  ghost predicate StoppedIn(now: seq<Table>, old_t: seq<Table>, shots: seq<seq<LogPage>>, i: nat) {
    && i < |now| == |old_t| == |shots| && Partly(now[i], old_t[i], shots[i])
    && (forall k {:trigger now[k]} | 0 <= k < i :: now[k] == After(old_t[k], shots[k]))
    && forall k {:trigger now[k]} | i < k < |now| :: now[k] == old_t[k]
  }

  /** What a second restore makes of that record: it passes over it if the first table has its time. */
  ghost function Repeated(now: seq<Table>, shots: seq<seq<LogPage>>, timed: bool): seq<Table>
    requires |now| == |shots|
  {
    if timed then now else News(now, shots)
  }

  /** A second restore brings all tables over the record if and only if the first one was stopped before the first
      table got the time of the record, or nothing was left to be written. */
  lemma RepeatedIff(now: seq<Table>, old_t: seq<Table>, shots: seq<seq<LogPage>>, i: nat, timed: bool)
    requires StoppedIn(now, old_t, shots, i) && (i > 0 ==> timed)
    ensures Repeated(now, shots, timed) == News(old_t, shots) <==>
            !timed || forall k {:trigger now[k]} | i <= k < |now| :: now[k] == After(old_t[k], shots[k])
  {
    var all := News(old_t, shots);
    hide After, Partly;
    if timed {
      if now == all {
        forall k {:trigger now[k]} | i <= k < |now|
          ensures now[k] == After(old_t[k], shots[k])
        {
          assert now[k] == all[k];
        }
      }
    } else {
      Redone(now[0], old_t[0], shots[0]);
      forall k | 0 <= k < |now|
        ensures News(now, shots)[k] == all[k]
      {
        if k > 0 { assert now[k] == old_t[k]; }
      }
    }
  }

  // ---------- a story with cuts ----------

  /** What a file names that the next one is not chained to is older than that one. */
  ghost predicate Apart(logs: map<nat, Log>, st: Story) {
    && |st.cuts| == |st.ids|
    && forall k {:trigger st.cuts[k]} | 0 < k < |st.ids| && st.cuts[k] ::
         st.ids[k - 1] in logs ==> logs[st.ids[k - 1]].key.chain < st.ids[k]
  }

  /** Between two files of the story there is none. */
  lemma NoneBetween(st: Story, k: nat, t: nat)
    requires Shape(st) && k + 1 < |st.ids| && st.ids[k] < t < st.ids[k + 1]
    ensures t !in st.ids && t > st.ids[0]
  {
    assert 0 < k ==> st.ids[0] < st.ids[k];
  }

  /** No file was begun without a chain behind file a, up to file b. */
  ghost predicate Uncut(st: Story, a: nat, b: nat) {
    b < |st.cuts| && forall k {:trigger st.cuts[k]} | a < k <= b :: !st.cuts[k]
  }

  /** Where the chain that file f is in ends. */
  ghost function End(st: Story, f: nat): (e: nat)
    requires f < |st.ids| == |st.cuts|
    ensures f <= e < |st.ids| && Uncut(st, f, e) && (e + 1 < |st.ids| ==> st.cuts[e + 1])
    decreases |st.ids| - f
  {
    if f + 1 < |st.ids| && !st.cuts[f + 1] then End(st, f + 1) else f
  }

  /** The story up to file e. */
  ghost function Until(st: Story, e: nat): Story
    requires Shape(st) && e < |st.ids|
  {
    assert st.starts[e + 1] <= st.starts[|st.ids|];
    Story(st.ids[..e + 1], st.starts[..e + 2], st.recs[..st.starts[e + 1]], st.cuts[..e + 1])
  }

  lemma FormedFront(recs: seq<Rec>, n: nat, k: nat)
    requires Formed(recs, n) && k <= |recs|
    ensures Formed(recs[..k], n)
  {
    var z := recs[..k];
    forall i | 0 <= i < |z|
      ensures (z[i].result == Commit <==> z[i].stamp > 0) && (z[i].result == Commit ==> ShotsFit(z[i].shots, n))
    {
      assert z[i] == recs[i];
    }
  }

  lemma UntilShape(st: Story, e: nat)
    requires Shape(st) && e < |st.ids|
    ensures Shape(Until(st, e)) && Last(Until(st, e)) == st.ids[e] && st.starts[e + 1] <= |st.recs|
  {
  }

  lemma TellsFront(log: Log, n: nat, recs: seq<Rec>, a: nat, b: nat, lim: nat)
    requires Tells(log, n, recs, a, b) && b <= lim <= |recs|
    ensures Tells(log, n, recs[..lim], a, b)
  {
    hide RecOf;
    forall j: nat | j < log.key.cur
      ensures recs[..lim][a + j] == RecOf(log, n, j)
    {
      assert recs[a + j] == RecOf(log, n, j);
    }
  }

  lemma UntilTold(logs: map<nat, Log>, n: nat, st: Story, e: nat)
    requires Shape(st) && AllTold(logs, n, st) && e < |st.ids|
    ensures AllTold(logs, n, Until(st, e))
  {
    var z := Until(st, e);
    hide Tells;
    forall k | 0 <= k < |z.ids|
      ensures z.ids[k] in logs && Tells(logs[z.ids[k]], n, z.recs, z.starts[k], z.starts[k + 1])
    {
      ToldAt(logs, n, st, k);
      assert k + 1 < e + 1 ==> st.starts[k + 1] <= st.starts[e + 1];
      TellsFront(logs[st.ids[k]], n, st.recs, st.starts[k], st.starts[k + 1], st.starts[e + 1]);
    }
  }

  lemma UntilChain(logs: map<nat, Log>, st: Story, e: nat)
    requires Shape(st) && Chain(logs, st) && e < |st.ids|
    ensures Chain(logs, Until(st, e))
  {
    var z := Until(st, e);
    forall k | 0 <= k < |z.ids| ensures 0 < z.ids[k] && z.ids[k] in logs { assert z.ids[k] == st.ids[k]; }
    forall k | 0 <= k < |z.ids| - 1 ensures Follows(logs, z, k) { assert Follows(logs, st, k); }
  }

  /** Where a chain ends there is nothing to read. */
  lemma ChainEnd(logs: map<nat, Log>, n: nat, st: Story, e: nat)
    requires Chron(logs, n, st) && Apart(logs, st) && e < |st.ids| && (e + 1 < |st.ids| ==> st.cuts[e + 1])
    ensures st.ids[e] in logs
    ensures var next := logs[st.ids[e]].key.chain;
            next == 0 || next !in logs || (logs[next].key.cur == 0 && logs[next].key.chain == 0)
  {
    hide AllTold, Formed, Below;
    LastIn(st, e);
    assert st.ids[e] in logs && st.ids[0] <= st.ids[e];
    var next := logs[st.ids[e]].key.chain;
    if e + 1 < |st.ids| {
      assert Follows(logs, st, e);
      assert st.cuts[e + 1] && next < st.ids[e + 1];
      if next != 0 { NoneBetween(st, e, next); }
    } else if next != 0 {
      NotInStory(st, next);
    }
  }

  lemma UntilFormed(st: Story, n: nat, e: nat)
    requires Shape(st) && Formed(st.recs, n) && e < |st.ids|
    ensures Formed(Until(st, e).recs, n)
  {
    UntilShape(st, e);
    FormedFront(st.recs, n, st.starts[e + 1]);
  }

  lemma UntilUncut(st: Story, f: nat)
    requires Shape(st) && f < |st.ids|
    ensures var z := Until(st, End(st, f)); forall k {:trigger z.cuts[k]} | f < k < |z.cuts| :: !z.cuts[k]
  {
    var e := End(st, f);
    assert Uncut(st, f, e);
  }

  /** What can be read from file f on is the story up to the end of its chain. */
  lemma UntilReads(logs: map<nat, Log>, n: nat, st: Story, f: nat)
    requires Chron(logs, n, st) && Apart(logs, st) && f < |st.ids|
    ensures ReadChain(logs, n, Until(st, End(st, f)), f)
  {
    var e := End(st, f);
    ChainEnd(logs, n, st, e);
    hide Chain, AllTold, Formed, Below, Loose, Apart, Until, Uncut;
    UntilShape(st, e);
    UntilTold(logs, n, st, e);
    UntilChain(logs, st, e);
    UntilFormed(st, n, e);
    UntilUncut(st, f);
  }
}
