/** What a restart finds on the disk of `GlobalLogger` in `znet/common/db.h`: all tables at one checkpoint, the story of
    the log files, and possibly one more checkpoint under way. */
module Recovery {
  import opened CheckpointModel
  import opened LogReplay

  /** The files have the time of the last commit. */
  ghost predicate Dated(files: seq<File>, recs: seq<Rec>) {
    DateOf(recs) > 0 ==> forall i {:trigger files[i]} | 0 <= i < |files| :: files[i].check == DateOf(recs)
  }

  /** All tables are `tables`, with the last log file of the story, which has nothing to redo. */
  ghost predicate Rests(m: Media, st: Story, tables: seq<Table>) {
    Quiet(m, Last(st), tables) && Chron(m.logs, |tables|, st) && Dated(m.files, st.recs)
  }

  /** A checkpoint is prepared in file L, in which the story goes on. */
  ghost predicate Begun(m: Media, st: Story, L: nat, cut: bool, old_t: seq<Table>, shots: seq<seq<LogPage>>) {
    Ready(m, L, old_t, shots) && Chron(m.logs, |old_t|, st) && Joined(m.logs, Last(st), L, cut)
  }

  /** The same, and some table names the file already: a restart will redo it. */
  ghost predicate Underway(m: Media, st: Story, L: nat, cut: bool, old_t: seq<Table>, shots: seq<seq<LogPage>>) {
    Begun(m, st, L, cut, old_t, shots) && Armed(m, L, old_t, shots)
  }

  /** A checkpoint is committed in file L, and no other one was begun; if `fair`, its time is later than all before. */
  ghost predicate Done(m: Media, st: Story, L: nat, cut: bool, stamp: nat, old_t: seq<Table>,
      shots: seq<seq<LogPage>>, fair: bool)
  {
    && (fair ==> stamp > DateOf(st.recs))
    && |old_t| == |shots| && Shape(st) && L in m.logs && m.logs[L].key.cur !in m.logs[L].key.items
    && Last(Grown(st, L, cut, Rec(stamp, Commit, shots))) == L
    && Rests(m, Grown(st, L, cut, Rec(stamp, Commit, shots)), News(old_t, shots))
  }

  /** The states from which restarts lead to the old checkpoint everywhere or to the new one everywhere; `fair`
      tells that the new one, if it is committed, is later than all others. */
  ghost predicate Recoverable(m: Media, st: Story, old_t: seq<Table>, shots: seq<seq<LogPage>>, fair: bool) {
    && |old_t| == |shots| && Shape(st)
    && (Rests(m, st, old_t) || (exists L, cut :: Underway(m, st, L, cut, old_t, shots))
        || exists L, cut, stamp :: Done(m, st, L, cut, stamp, old_t, shots, fair))
  }

  // ---------- what a write leaves of the finished records ----------

  lemma KeySame(log: Log, key: Key, n: nat)
    requires Below(log, n) && key.cur == log.key.cur && key.last >= log.key.last && forall j: nat | j < key.cur ::
             ItemOf(key, j) == ItemOf(log.key, j)
    ensures SameRecs(log, log.(key := key), n) && Below(log.(key := key), n)
  {
    var now := log.(key := key);
    forall j: nat | j < key.cur
      ensures RecOf(now, n, j) == RecOf(log, n, j)
    {
      assert ItemOf(key, j) == ItemOf(log.key, j);
      ShotsKey(log, now, n, j);
    }
    forall i: nat, j: nat | i < n && i in now.info && j < key.cur && ItemOf(key, j).result == Commit
      ensures SpanOf(now.info[i], j).last <= key.last
    {
      assert ItemOf(key, j) == ItemOf(log.key, j) && SpanOf(log.info[i], j).last <= log.key.last;
    }
  }

  function SpanAt(log: Log, i: nat, j: nat): Span {
    SpanOf(if i in log.info then log.info[i] else map[], j)
  }

  lemma ShotSame(log: Log, now: Log, i: nat, j: nat)
    requires SpanAt(log, i, j) == SpanAt(now, i, j)
    requires forall k: nat {:trigger PageAt(now, k)} | k < SpanAt(log, i, j).last :: PageAt(now, k) == PageAt(log, k)
    ensures ShotOf(now, i, j) == ShotOf(log, i, j)
  {
    hide PageAt;
    var a, b := ShotOf(log, i, j), ShotOf(now, i, j);
    forall k: nat | k < |a| && k < |b|
      ensures a[k] == b[k]
    {
      var span := SpanAt(log, i, j);
      if 0 < span.first <= span.last { assert PageAt(now, span.first + k) == PageAt(log, span.first + k); }
    }
    assert |a| == |b|;
  }

  lemma ShotsKey(log: Log, now: Log, n: nat, j: nat)
    requires now.info == log.info && now.data == log.data
    ensures ShotsOf(now, n, j) == ShotsOf(log, n, j)
  {
    forall i: nat | i < n ensures ShotOf(now, i, j) == ShotOf(log, i, j) { ShotSame(log, now, i, j); }
  }

  lemma InfoSame(log: Log, i: nat, spans: map<nat, Span>, n: nat)
    requires Below(log, n) && i in log.info && forall j: nat | j < log.key.cur ::
             SpanOf(spans, j) == SpanOf(log.info[i], j)
    ensures var now := log.(info := log.info[i := spans]); SameRecs(log, now, n) && Below(now, n)
  {
    var now := log.(info := log.info[i := spans]);
    forall j: nat | j < log.key.cur
      ensures ShotsOf(now, n, j) == ShotsOf(log, n, j)
    {
      assert SpanOf(spans, j) == SpanOf(log.info[i], j);
      forall k: nat | k < n ensures ShotOf(now, k, j) == ShotOf(log, k, j) { ShotSame(log, now, k, j); }
    }
    forall k: nat, j: nat | k < n && k in now.info && j < now.key.cur && ItemOf(now.key, j).result == Commit
      ensures SpanOf(now.info[k], j).last <= now.key.last
    {
      assert SpanOf(spans, j) == SpanOf(log.info[i], j) && SpanOf(log.info[k], j).last <= log.key.last;
    }
  }

  lemma DataSame(log: Log, k: nat, page: LogPage, n: nat)
    requires Below(log, n) && k >= log.key.last && forall i: nat | i < n :: i in log.info
    ensures var now := log.(data := log.data[k := page]); SameRecs(log, now, n) && Below(now, n)
  {
    var now := log.(data := log.data[k := page]);
    forall j: nat | j < log.key.cur
      ensures RecOf(now, n, j) == RecOf(log, n, j)
    {
      if ItemOf(log.key, j).result == Commit {
        forall i: nat | i < n
          ensures ShotOf(now, i, j) == ShotOf(log, i, j)
        {
          assert i in log.info && SpanOf(log.info[i], j).last <= log.key.last;
          ShotSame(log, now, i, j);
        }
        assert ShotsOf(now, n, j) == ShotsOf(log, n, j);
      }
    }
    forall i: nat, j: nat | i < n && i in now.info && j < now.key.cur && ItemOf(now.key, j).result == Commit
      ensures SpanOf(now.info[i], j).last <= now.key.last
    {
      assert SpanOf(log.info[i], j).last <= log.key.last;
    }
  }

  lemma SavedIs(log: Log, i: nat, s: seq<LogPage>)
    requires Saved(log, i, s)
    ensures ShotOf(log, i, log.key.cur) == s
  {
    var span := SpanOf(log.info[i], log.key.cur);
    var a := ShotOf(log, i, log.key.cur);
    forall q: nat | q < |s|
      ensures a[q] == s[q]
    {
      assert PieceAt(log, span.first, s, q);
      assert a[q] == PageAt(log, span.first + q);
    }
  }

  /** The current record is finished like this, and the next one is current. */
  function Closed(key: Key, result: Result, stamp: nat): Key {
    key.(items := key.items[key.cur := ItemOf(key, key.cur).(result := result, stamp := stamp)], cur := key.cur + 1)
  }

  lemma ClosedSame(log: Log, result: Result, stamp: nat, n: nat, j: nat)
    requires j < log.key.cur
    ensures RecOf(log.(key := Closed(log.key, result, stamp)), n, j) == RecOf(log, n, j)
  {
    ShotsKey(log, log.(key := Closed(log.key, result, stamp)), n, j);
  }

  lemma CommitRec(log: Log, shots: seq<seq<LogPage>>, stamp: nat)
    requires Describes(log, shots) && Below(log, |shots|)
    ensures var now := log.(key := Closed(log.key, Commit, stamp));
            RecOf(now, |shots|, log.key.cur) == Rec(stamp, Commit, shots) && Below(now, |shots|)
  {
    var now := log.(key := Closed(log.key, Commit, stamp));
    hide Saved, Piece;
    forall i: nat | i < |shots|
      ensures ShotOf(log, i, log.key.cur) == shots[i]
    {
      assert Saved(log, i, shots[i]);
      SavedIs(log, i, shots[i]);
    }
    ShotsKey(log, now, |shots|, log.key.cur);
    assert ShotsOf(log, |shots|, log.key.cur) == shots;
    forall i: nat, j: nat | i < |shots| && i in now.info && j < now.key.cur && ItemOf(now.key, j).result == Commit
      ensures SpanOf(now.info[i], j).last <= now.key.last
    {
      if j == log.key.cur {
        assert Saved(log, i, shots[i]);
        assert SavedBelow(log, i, shots[i], log.key.last);
      } else {
        assert ItemOf(log.key, j) == ItemOf(now.key, j) && SpanOf(log.info[i], j).last <= log.key.last;
      }
    }
  }

  lemma AbortRec(log: Log, n: nat)
    requires Below(log, n) && ItemOf(log.key, log.key.cur).stamp == 0
    ensures var now := log.(key := Closed(log.key, Abort, 0));
            RecOf(now, n, log.key.cur) == Rec(0, Abort, []) && Below(now, n)
  {
    var now := log.(key := Closed(log.key, Abort, 0));
    forall i: nat, j: nat | i < n && i in now.info && j < now.key.cur && ItemOf(now.key, j).result == Commit
      ensures SpanOf(now.info[i], j).last <= now.key.last
    {
      assert ItemOf(log.key, j) == ItemOf(now.key, j) && SpanOf(log.info[i], j).last <= log.key.last;
    }
  }

  // ---------- single writes ----------

  /** The open log file may be written in front of the current record's end as long as nothing is prepared. */
  lemma RestsKey(m: Media, st: Story, tables: seq<Table>, t: nat, key: Key)
    requires Rests(m, st, tables) && Last(st) <= t
    requires if t == Last(st) then Onward(m.logs[t].key, key, t) && ItemOf(key, key.cur).result != Prepared
             else key.cur == 0 && key.chain == 0
    ensures Rests(WithKey(m, t, key), st, tables)
  {
    var n, C := |tables|, Last(st);
    QuietKey(m, C, tables, t, key);
    hide Quiet;
    if t == C {
      assert C in m.logs && Below(m.logs[C], n);
      KeySame(m.logs[C], key, n);
      ChronLast(m.logs, n, st, m.logs[C].(key := key));
    } else {
      ChronLoose(m.logs, n, st, t, LogAt(m, t).(key := key));
    }
  }

  /** Page 0 of the open log file: the finished records stay. */
  ghost predicate Onward(was: Key, key: Key, L: nat) {
    && Fresh(key) && key.cur == was.cur && key.last >= was.last && (key.chain == 0 || key.chain > L)
    && forall j: nat | j < key.cur :: ItemOf(key, j) == ItemOf(was, j)
  }

  /** A log file that no table names has no finished record. */
  lemma LooseAt(m: Media, n: nat, st: Story, t: nat)
    requires Chron(m.logs, n, st) && t > Last(st)
    ensures LogAt(m, t).key.cur == 0 && LogAt(m, t).key.chain == 0
  {
    NotInStory(st, t);
  }

  lemma RestsInfo(m: Media, st: Story, tables: seq<Table>, t: nat, i: nat, spans: map<nat, Span>)
    requires Rests(m, st, tables) && Last(st) <= t && i < |tables|
    requires t == Last(st) ==>
             forall j: nat | j < m.logs[t].key.cur ::
             i in m.logs[t].info && SpanOf(spans, j) == SpanOf(m.logs[t].info[i], j)
    ensures Rests(WithInfo(m, t, i, spans), st, tables)
  {
    var n, C := |tables|, Last(st);
    QuietInfo(m, C, tables, t, i, spans);
    if t == C {
      InfoSame(m.logs[C], i, spans, n);
      hide Quiet;
      ChronLast(m.logs, n, st, m.logs[C].(info := m.logs[C].info[i := spans]));
    } else {
      hide Quiet;
      LooseAt(m, n, st, t);
      ChronLoose(m.logs, n, st, t, LogAt(m, t).(info := LogAt(m, t).info[i := spans]));
    }
  }

  lemma RestsData(m: Media, st: Story, tables: seq<Table>, t: nat, k: nat, page: LogPage)
    requires Rests(m, st, tables) && Last(st) <= t && (t == Last(st) ==> k >= m.logs[t].key.last)
    ensures Rests(WithData(m, t, k, page), st, tables)
  {
    var n, C := |tables|, Last(st);
    QuietData(m, C, tables, t, k, page);
    if t == C {
      DataSame(m.logs[C], k, page, n);
      hide Quiet;
      ChronLast(m.logs, n, st, m.logs[C].(data := m.logs[C].data[k := page]));
    } else {
      hide Quiet;
      LooseAt(m, n, st, t);
      ChronLoose(m.logs, n, st, t, LogAt(m, t).(data := LogAt(m, t).data[k := page]));
    }
  }

  /** The write that turns the record into a prepared one. */
  lemma Prepares(m: Media, st: Story, L: nat, cut: bool, old_t: seq<Table>, shots: seq<seq<LogPage>>, key: Key)
    requires Rests(m, st, old_t) && L in m.logs && Joined(m.logs, Last(st), L, cut) && |old_t| == |shots|
    requires Onward(m.logs[L].key, key, L) && ItemOf(key, key.cur).result == Prepared
             && (L > Last(st) ==> key.chain == 0)
    requires forall j: nat {:trigger SavedBelow(m.logs[L], j, shots[j], key.last)} | j < |shots| ::
             SavedBelow(m.logs[L], j, shots[j], key.last)
    ensures var n := WithKey(m, L, key);
            Begun(n, st, L, cut, old_t, shots) && Recoverable(n, st, old_t, shots, true)
            && forall i {:trigger n.files[i]} | 0 <= i < |n.files| :: n.files[i].table == old_t[i]
  {
    var n, C, w := WithKey(m, L, key), Last(st), |old_t|;
    RecordPrepared(m, C, L, old_t, shots, key, n, key.last);
    hide Quiet, Ready, Armed, SavedBelow;
    if L == C {
      assert Below(m.logs[C], w);
      KeySame(m.logs[C], key, w);
      ChronLast(m.logs, w, st, m.logs[C].(key := key));
      assert Underway(n, st, L, cut, old_t, shots);
    } else {
      LooseAt(m, w, st, L);
      ChronLoose(m.logs, w, st, L, m.logs[L].(key := key));
      assert Joined(n.logs, C, L, cut);
      assert Rests(n, st, old_t);
    }
  }

  /** Table i takes the id of the log file, and is changed only where the snapshot says. */
  lemma Steps(m: Media, st: Story, L: nat, cut: bool, old_t: seq<Table>, shots: seq<seq<LogPage>>, i: nat, f: File)
    requires Begun(m, st, L, cut, old_t, shots) && i < |m.files| && 0 < L && f.id == L
             && Partly(f.table, m.files[i].table, shots[i])
    ensures Begun(WithFile(m, i, f), st, L, cut, old_t, shots) && Recoverable(WithFile(m, i, f), st, old_t, shots, true)
  {
    TableStep(m, L, old_t, shots, i, f);
    assert |old_t| == |shots| && Shape(st);
    assert Armed(WithFile(m, i, f), L, old_t, shots) && Ready(WithFile(m, i, f), L, old_t, shots);
    hide Ready, Chron, Armed, Joined, Shape;
    assert Underway(WithFile(m, i, f), st, L, cut, old_t, shots);
  }

  // ---------- the end of a record ----------

  lemma {:induction false} DateTop(recs: seq<Rec>, i: nat)
    requires Timely(recs) && i < |recs| && recs[i].result == Commit
    ensures recs[i].stamp <= DateOf(recs)
    decreases |recs|
  {
    var top := |recs| - 1;
    if recs[top].result == Commit {
      assert i < top ==> recs[i].stamp < recs[top].stamp;
    } else {
      TimelyFront(recs, top);
      assert recs[..top][i] == recs[i];
      DateTop(recs[..top], i);
    }
  }

  lemma TimelyFront(recs: seq<Rec>, k: nat)
    requires Timely(recs) && k <= |recs|
    ensures Timely(recs[..k])
  {
    var z := recs[..k];
    forall i, j | 0 <= i < j < |z| && z[i].result == z[j].result == Commit
      ensures z[i].stamp < z[j].stamp
    {
      assert recs[i].stamp < recs[j].stamp;
    }
  }

  lemma DateMore(recs: seq<Rec>, rec: Rec)
    ensures DateOf(recs + [rec]) == if rec.result == Commit then rec.stamp else DateOf(recs)
  {
    assert (recs + [rec])[..|recs|] == recs;
  }

  /** A record may follow if it is aborted, or committed with a time. */
  lemma FormedMore(recs: seq<Rec>, n: nat, rec: Rec)
    requires Formed(recs, n)
    requires if rec.result == Commit then rec.stamp > 0 && ShotsFit(rec.shots, n) else rec.stamp == 0
    ensures Formed(recs + [rec], n)
    ensures DateOf(recs + [rec]) == if rec.result == Commit then rec.stamp else DateOf(recs)
  {
    var z := recs + [rec];
    hide DateOf;
    DateMore(recs, rec);
    forall i | 0 <= i < |z|
      ensures (z[i].result == Commit <==> z[i].stamp > 0) && (z[i].result == Commit ==> ShotsFit(z[i].shots, n))
    {
      if i < |recs| { assert z[i] == recs[i]; }
    }
  }

  /** The times go on growing if a committed record is later than all others. */
  lemma TimelyMore(recs: seq<Rec>, rec: Rec)
    requires Timely(recs) && (rec.result == Commit ==> rec.stamp > DateOf(recs))
    ensures Timely(recs + [rec])
  {
    var z := recs + [rec];
    forall i, j | 0 <= i < j < |z| && z[i].result == z[j].result == Commit
      ensures z[i].stamp < z[j].stamp
    {
      if j == |recs| {
        DateTop(recs, i);
      } else {
        assert recs[i].stamp < recs[j].stamp;
      }
    }
  }

  lemma ReadyFits(m: Media, L: nat, old_t: seq<Table>, shots: seq<seq<LogPage>>)
    requires Ready(m, L, old_t, shots)
    ensures ShotsFit(shots, |old_t|) && L in m.logs && Describes(m.logs[L], shots) && Inited(m.logs[L], |old_t|)
  {
    hide Piece, Partly;
    forall i: nat | i < |shots|
      ensures ShotOK(shots[i]) && i in m.logs[L].info
    {
      assert Saved(m.logs[L], i, shots[i]);
    }
  }

  lemma DoneIs(m: Media, st: Story, L: nat, cut: bool, stamp: nat, old_t: seq<Table>, shots: seq<seq<LogPage>>)
    requires |old_t| == |shots| && Shape(st) && L in m.logs && m.logs[L].key.cur !in m.logs[L].key.items
    requires Last(Grown(st, L, cut, Rec(stamp, Commit, shots))) == L
    requires Rests(m, Grown(st, L, cut, Rec(stamp, Commit, shots)), News(old_t, shots))
    ensures Done(m, st, L, cut, stamp, old_t, shots, stamp > DateOf(st.recs))
  {
    hide Rests;
  }

  lemma ClosedRoom(log: Log, shots: seq<seq<LogPage>>, stamp: nat)
    requires Describes(log, shots)
    ensures var key := Closed(log.key, Commit, stamp); key.cur !in key.items
  {
    hide Saved, Piece;
  }

  /** The write that closes the record: the new checkpoint is everywhere, and in the story. */
  lemma Closes(m: Media, st: Story, L: nat, cut: bool, old_t: seq<Table>, shots: seq<seq<LogPage>>, stamp: nat)
    requires Begun(m, st, L, cut, old_t, shots) && 0 < L && stamp > 0
    requires forall i {:trigger m.files[i]} | 0 <= i < |m.files| ::
               m.files[i].id == L && m.files[i].check == stamp && m.files[i].table == After(old_t[i], shots[i])
    ensures Done(WithKey(m, L, Closed(m.logs[L].key, Commit, stamp)), st, L, cut, stamp, old_t, shots,
                 stamp > DateOf(st.recs))
  {
    var key, n, rec, st1 := Closed(m.logs[L].key, Commit, stamp), |old_t|, Rec(stamp, Commit, shots), Moved(st, L, cut);
    ReadyFits(m, L, old_t, shots);
    assert Shape(st) && |old_t| == |shots|;
    RecordClosed(m, L, old_t, shots, key);
    ChronMoves(m.logs, n, st, L, cut);
    FormedMore(st.recs, n, rec);
    assert Below(m.logs[L], n);
    CommitRec(m.logs[L], shots, stamp);
    hide Quiet, Below, Describes;
    forall j: nat | j < m.logs[L].key.cur
      ensures RecOf(m.logs[L].(key := key), n, j) == RecOf(m.logs[L], n, j)
    {
      ClosedSame(m.logs[L], Commit, stamp, n, j);
    }
    ChronClose(m.logs, n, st1, m.logs[L].(key := key), rec);
    assert Dated(WithKey(m, L, key).files, Told(st1, rec).recs);
    assert Rests(WithKey(m, L, key), Grown(st, L, cut, rec), News(old_t, shots));
    ClosedRoom(m.logs[L], shots, stamp);
    hide Chron, Shape, Rests;
    DoneIs(WithKey(m, L, key), st, L, cut, stamp, old_t, shots);
  }

  /** The write that closes a record that was never prepared. */
  lemma Aborts(m: Media, st: Story, tables: seq<Table>)
    requires Rests(m, st, tables) && m.logs[Last(st)].key.cur in m.logs[Last(st)].key.items
    ensures Rests(WithKey(m, Last(st), Closed(m.logs[Last(st)].key, Abort, 0)), Aborted(st), tables)
  {
    var n, L := |tables|, Last(st);
    var log, key := m.logs[L], Closed(m.logs[L].key, Abort, 0);
    QuietKey(m, L, tables, L, key);
    FormedMore(st.recs, n, Rec(0, Abort, []));
    assert Below(log, n) && ItemOf(log.key, log.key.cur).stamp == 0;
    AbortRec(log, n);
    hide Quiet, Below;
    forall j: nat | j < log.key.cur
      ensures RecOf(log.(key := key), n, j) == RecOf(log, n, j)
    {
      ClosedSame(log, Abort, 0, n, j);
    }
    ChronClose(m.logs, n, st, log.(key := key), Rec(0, Abort, []));
  }

  // ---------- restart ----------

  lemma NewestOf(m: Media, L: nat, t: nat)
    requires Newest(m, t) && (forall i {:trigger m.files[i]} | 0 <= i < |m.files| :: m.files[i].id <= L)
             && (exists i :: 0 <= i < |m.files| && m.files[i].id == L)
    ensures t == L
  {
  }

  /** The newest log file that a table names tells which of the states the disk is in. */
  lemma NewestTells(m: Media, t: nat, st: Story, old_t: seq<Table>, shots: seq<seq<LogPage>>, fair: bool)
    requires Recoverable(m, st, old_t, shots, fair) && Newest(m, t)
    ensures t in m.logs && Fresh(m.logs[t].key) && Inited(m.logs[t], |old_t|) && |m.files| == |old_t| == |shots| > 0
            && 0 < t
    ensures Rests(m, st, old_t) ==> t == Last(st) && ItemOf(m.logs[t].key, m.logs[t].key.cur).result != Prepared
    ensures ItemOf(m.logs[t].key, m.logs[t].key.cur).result == Prepared ==>
              exists cut :: Underway(m, st, t, cut, old_t, shots)
    ensures ItemOf(m.logs[t].key, m.logs[t].key.cur).result != Prepared ==>
              || (Rests(m, st, old_t) && t == Last(st))
              || (m.logs[t].key.cur !in m.logs[t].key.items
                  && exists cut, stamp :: Done(m, st, t, cut, stamp, old_t, shots, fair))
  {
    if Rests(m, st, old_t) {
      RestsNewest(m, st, old_t, t);
    } else if L, cut :| Underway(m, st, L, cut, old_t, shots) {
      assert Newest(m, L) by { hide Partly; }
      NewestOf(m, L, t);
      ReadyFits(m, L, old_t, shots);
      assert |m.files| == |old_t| == |shots| > 0 && m.files[0].id > 0 by { assert Ready(m, L, old_t, shots); }
    } else {
      var L, cut, stamp :| Done(m, st, L, cut, stamp, old_t, shots, fair);
      RestsNewest(m, Grown(st, L, cut, Rec(stamp, Commit, shots)), News(old_t, shots), t);
    }
  }

  lemma RestsNewest(m: Media, st: Story, tables: seq<Table>, t: nat)
    requires Rests(m, st, tables) && Newest(m, t)
    ensures t == Last(st) > 0 && t in m.logs && |m.files| == |tables| > 0
    ensures Fresh(m.logs[t].key) && Inited(m.logs[t], |tables|)
            && ItemOf(m.logs[t].key, m.logs[t].key.cur).result != Prepared
  {
    hide Chron;
    assert m.files[0].id == Last(st);
  }

  /** The story in every state that a restart can meet. */
  lemma StoryOf(m: Media, st: Story, old_t: seq<Table>, shots: seq<seq<LogPage>>, fair: bool)
    requires Recoverable(m, st, old_t, shots, fair)
    ensures Shape(st) && Formed(st.recs, |old_t|) && |m.files| == |old_t| == |shots| > 0
  {
    if Rests(m, st, old_t) {
    } else if L, cut :| Underway(m, st, L, cut, old_t, shots) {
      hide Armed;
    } else {
      var L, cut, stamp :| Done(m, st, L, cut, stamp, old_t, shots, fair);
      var rec := Rec(stamp, Commit, shots);
      assert Chron(m.logs, |old_t|, Grown(st, L, cut, rec));
      FormedFront(st.recs + [rec], |old_t|, |st.recs|);
      assert (st.recs + [rec])[..|st.recs|] == st.recs;
    }
  }

  lemma {:induction false} DateIn(recs: seq<Rec>) returns (i: nat)
    requires DateOf(recs) > 0
    ensures i < |recs| && recs[i].result == Commit && recs[i].stamp == DateOf(recs)
    decreases |recs|
  {
    i := |recs| - 1;
    if recs[i].result != Commit { i := DateIn(recs[..|recs| - 1]); }
  }

  /** A committed record at the end. */
  lemma LastRec(recs: seq<Rec>, n: nat, rec: Rec)
    requires Formed(recs + [rec], n) && rec.result == Commit
    ensures rec.stamp > 0 && ShotsFit(rec.shots, n) && DateOf(recs + [rec]) == rec.stamp
  {
    assert (recs + [rec])[|recs|] == rec;
  }

  lemma Weaker(m: Media, st: Story, old_t: seq<Table>, shots: seq<seq<LogPage>>, fair: bool, less: bool)
    requires Recoverable(m, st, old_t, shots, fair) && (less ==> fair)
    ensures Recoverable(m, st, old_t, shots, less)
  {
    if Rests(m, st, old_t) || exists L, cut :: Underway(m, st, L, cut, old_t, shots) {
    } else {
      var L, cut, stamp :| Done(m, st, L, cut, stamp, old_t, shots, fair);
      assert Done(m, st, L, cut, stamp, old_t, shots, less);
    }
  }
}
