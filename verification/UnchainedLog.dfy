/** A run of `GlobalLogger` in `znet/common/db.h` with one table.  A checkpoint at 5 in log file 1; the one at 7 was
    stopped, and a restart redid it; the next one at 10 went to log file 9, which log file 1 does not name. */
module UnchainedLog {
  import opened Keys
  import opened CheckpointModel
  import opened LogReplay
  import opened Recovery
  import opened Checkpoint
  import opened History

  /** The table whose magic page holds b, and the snapshot with that page alone. */
  function TableOf(b: byte): Table { Table([b], map[]) }

  function MagicPage(b: byte): seq<LogPage> { [LogPage(0, [b])] }

  function RecordOf(b: byte): Rec { Rec(b as nat, Commit, [MagicPage(b)]) }

  const START: seq<Table> := [Table([], map[])]

  /** Log file 1 ends its chain at once: the redo gave way to a logger that did not open it. */
  function FirstLog(): Log {
    Log(Key(4, 2, 203, 0, map[0 := Item(2, 3, 5, Commit), 1 := Item(3, 4, 7, Commit)]),
        map[0 := map[0 := Span(2, 3), 1 := Span(3, 4)]], map[2 := LogPage(0, [5]), 3 := LogPage(0, [7])])
  }

  function SecondLog(): Log {
    Log(Key(3, 1, 203, 0, map[0 := Item(2, 3, 10, Commit)]), map[0 := map[0 := Span(2, 3)]], map[2 := LogPage(0, [10])])
  }

  function Logs(): map<nat, Log> { map[1 := FirstLog(), 9 := SecondLog()] }

  function Records(): seq<Rec> { [RecordOf(5), RecordOf(7), RecordOf(10)] }

  function TwoFiles(): Story { Story([1, 9], [0, 2, 3], Records(), [true, true]) }

  function Moments(): seq<Moment> {
    [Moment(5, [TableOf(5)], 1, 0, 1), Moment(7, [TableOf(7)], 1, 0, 2), Moment(10, [TableOf(10)], 9, 1, 3)]
  }

  /** The state behind the checkpoint at 10. */
  function Behind(): State {
    State(Media([File(TableOf(10), 9, 10)], Logs()), TwoFiles(), Moments(), Nothing, Ready, 10, true)
  }

  // ---------- the log files tell the three checkpoints ----------

  lemma OnePage(log: Log, rec: nat, at: nat, b: byte)
    requires 0 in log.info && SpanOf(log.info[0], rec) == Span(at, at + 1) && at > 0
    requires PageAt(log, at) == LogPage(0, [b])
    ensures ShotsOf(log, 1, rec) == [MagicPage(b)]
  {
    assert ShotOf(log, 0, rec) == MagicPage(b);
  }

  lemma FirstTells()
    ensures Tells(FirstLog(), 1, Records(), 0, 2)
  {
    OnePage(FirstLog(), 0, 2, 5);
    OnePage(FirstLog(), 1, 3, 7);
    hide ShotsOf;
    forall j: nat | j < 2
      ensures Records()[0 + j] == RecOf(FirstLog(), 1, j)
    {
      assert j == 0 || j == 1;
    }
  }

  lemma SecondTells()
    ensures Tells(SecondLog(), 1, Records(), 2, 3) && Below(SecondLog(), 1)
  {
    OnePage(SecondLog(), 0, 2, 10);
    hide ShotsOf;
  }

  lemma RecordsOrdered()
    ensures Ordered(Records(), 1) && DateOf(Records()) == 10
  {
  }

  lemma FilesTell()
    ensures Chron(Logs(), 1, TwoFiles()) && Apart(Logs(), TwoFiles())
  {
    FirstTells();
    SecondTells();
    RecordsOrdered();
    hide Tells, Formed, Timely, Below, DateOf;
    var st := TwoFiles();
    assert Follows(Logs(), st, 0);
    assert Chain(Logs(), st);
  }

  lemma TableRests()
    ensures Rests(Behind().m, TwoFiles(), [TableOf(10)])
  {
    FilesTell();
    RecordsOrdered();
    hide Chron, Formed, Timely, DateOf, Records, Apart;
    assert Idle(Behind().m, 9, 1);
  }

  // ---------- and the moments ----------

  lemma OneReplayed(recs: seq<Rec>, b: byte, t: nat, table: Table)
    requires Before(START, recs, t) == [table] && table.pages == map[]
    ensures Before(START, recs + [RecordOf(b)], t) == if b as nat < t then [TableOf(b)] else [table]
  {
    assert (recs + [RecordOf(b)])[..|recs|] == recs;
    assert Write(table.pages, MagicPage(b)[..0]) == table.pages;
    assert After(table, MagicPage(b)) == TableOf(b);
  }

  lemma Replayed(t: nat)
    ensures Before(START, Records(), t) ==
            [if t > 10 then TableOf(10) else if t > 7 then TableOf(7) else if t > 5 then TableOf(5) else START[0]]
  {
    hide Before, RecordOf;
    var r := Records();
    NoneReplayed(t);
    assert [] + [r[0]] == [r[0]] && [r[0]] + [r[1]] == [r[0], r[1]] && [r[0], r[1]] + [r[2]] == r;
    OneReplayed([], 5, t, START[0]);
    OneReplayed([r[0]], 7, t, if t > 5 then TableOf(5) else START[0]);
    OneReplayed([r[0], r[1]], 10, t, if t > 7 then TableOf(7) else if t > 5 then TableOf(5) else START[0]);
  }

  lemma NoneReplayed(t: nat)
    ensures Before(START, [], t) == [START[0]]
  {
  }

  lemma MomentStands(k: nat)
    requires k < 3
    ensures Stood(Moments()[k], TwoFiles(), START) && Marked(Moments()[k], TwoFiles())
  {
    Replayed(Moments()[k].stamp + 1);
    hide Before;
    assert k == 0 || k == 1 || k == 2;
  }

  lemma MomentsStand()
    ensures AllStood(Moments(), TwoFiles(), START) && AllMarked(Moments(), TwoFiles()) && Rising(Moments())
  {
    MomentsRise();
    hide Stood, Marked, TwoFiles, Rising;
    forall k: nat | k < 3
      ensures Stood(Moments()[k], TwoFiles(), START) && Marked(Moments()[k], TwoFiles())
    {
      MomentStands(k);
    }
  }

  lemma MomentsRise()
    ensures Rising(Moments())
  {
    hide TableOf;
  }

  lemma MomentsComplete()
    ensures Complete(Moments(), Records()) && Timely(Records())
  {
    assert Moments()[0].stamp == 5 && Moments()[1].stamp == 7 && Moments()[2].stamp == 10;
  }

  /** It is a state of the runs above. */
  lemma RunState()
    ensures Sound(Behind(), START) && Recorded(Moments(), TwoFiles(), START)
    ensures Chron(Logs(), 1, TwoFiles()) && Apart(Logs(), TwoFiles())
  {
    FilesTell();
    TableRests();
    RecordsOrdered();
    MomentsStand();
    MomentsComplete();
    hide AllStood, AllMarked, Complete, Rising, Timely, Formed, DateOf, Chron, Apart, Records, Rests;
    assert Naming(Behind().m, TwoFiles(), 10);
  }

  /** The copy made at 5 is led to 7 by restore(11), though the last checkpoint before is that at 10. */
  lemma EndsAtSeven()
    ensures Moments()[Latest(Moments(), 0, 11)].stamp == 10 && !Uncut(TwoFiles(), 0, 1)
    ensures End(TwoFiles(), 0) == 0 && Moments()[Reach(Moments(), 0, 11, 0)].stamp == 7
  {
    assert TwoFiles().cuts[1];
    assert Moments()[..2] == [Moments()[0], Moments()[1]];
    hide Records;
  }

  /** The files behind restore(11). */
  method RestoreEleven(budget: nat) returns (disk: Disk)
    ensures disk.budget > 0 ==> TablesAre(disk.m.files, [TableOf(7)])
  {
    RunState();
    EndsAtSeven();
    hide Sound, Recorded, Chron, Apart, Logs, Latest, TablesAre, Uncut;
    disk := new Disk(Media([File(TableOf(5), 1, 5)], Logs()), budget);
    var ok, times, pos := RestoreMoment(disk, 203, 4096, 11, Moments(), TwoFiles(), START, 0);
  }
}
