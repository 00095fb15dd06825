/** The multi-table checkpoint of `GlobalLogger` in `znet/common/db.h`.  A machine that stops between
    two page writes is a disk whose budget of writes runs out: later writes are lost. */
module Checkpoint {
  import opened CheckpointModel
  import opened LogReplay
  import opened Recovery

  class Disk {
    var m: Media
    var budget: nat

    constructor (m: Media, budget: nat)
      ensures this.m == m && this.budget == budget
    {
      this.m, this.budget := m, budget;
    }

    method WriteFile(i: nat, f: File)
      requires i < |m.files|
      modifies this
      ensures if old(budget) > 0 then m == WithFile(old(m), i, f) && budget == old(budget) - 1
              else m == old(m) && budget == 0
    {
      if budget > 0 {
        m, budget := WithFile(m, i, f), budget - 1;
      }
    }

    method WriteKey(t: nat, key: Key)
      modifies this
      ensures if old(budget) > 0 then m == WithKey(old(m), t, key) && budget == old(budget) - 1
              else m == old(m) && budget == 0
    {
      if budget > 0 {
        m, budget := WithKey(m, t, key), budget - 1;
      }
    }

    method WriteInfo(t: nat, i: nat, info: map<nat, Span>)
      modifies this
      ensures ChainsBy(old(m.logs), m.logs, 0, 0)
      ensures if old(budget) > 0 then m == WithInfo(old(m), t, i, info) && budget == old(budget) - 1
              else m == old(m) && budget == 0
    {
      if budget > 0 {
        m, budget := WithInfo(m, t, i, info), budget - 1;
      }
    }

    method WriteData(t: nat, k: nat, page: LogPage)
      modifies this
      ensures ChainsBy(old(m.logs), m.logs, 0, 0)
      ensures if old(budget) > 0 then m == WithData(old(m), t, k, page) && budget == old(budget) - 1
              else m == old(m) && budget == 0
    {
      if budget > 0 {
        m, budget := WithData(m, t, k, page), budget - 1;
      }
    }
  }

  /** What is left of a budget after k writes. */
  ghost function Left(b: nat, k: nat): nat {
    if b > k then b - k else 0
  }

  /** One write for every page of the snapshots and one more for every table. */
  ghost function Writes(shots: seq<seq<LogPage>>): nat {
    if shots == [] then 0 else Writes(shots[..|shots| - 1]) + |shots[|shots| - 1]| + 1
  }

  /** The page writes of a checkpoint: those of a rotation, two for every page of the snapshots and every table, and
      three of the key page. */
  ghost predicate Spent(b: nat, rotate: bool, open: bool, n: nat, shots: seq<seq<LogPage>>, c: nat) {
    c == Left(b, (if rotate then n + (if open then 2 else 1) else 0) + 2 * Writes(shots) + 3)
  }

  /** The page writes of a restart, with log file L on disk m: those of redo(), or the one that aborts a record. */
  ghost predicate RestartSpent(b: nat, m: Media, L: nat, redo: bool, shots: seq<seq<LogPage>>, c: nat) {
    c == Left(b, if redo then Writes(shots) + 1 else if Unfinished(LogAt(m, L).key) then 1 else 0)
  }

  lemma WritesMore(shots: seq<seq<LogPage>>, i: nat)
    requires i < |shots|
    ensures Writes(shots[..i + 1]) == Writes(shots[..i]) + |shots[i]| + 1 && shots[..|shots|] == shots
  {
    assert shots[..i + 1][..i] == shots[..i];
  }

  lemma {:induction false} WritesAll(shots: seq<seq<LogPage>>)
    ensures Writes(shots[..0]) == 0 && Writes(shots) >= |shots| && shots[..|shots|] == shots
  {
    if shots != [] { WritesAll(shots[..|shots| - 1]); }
  }

  /** No log file names another one than before, but F may name L. */
  ghost predicate ChainsBy(was: map<nat, Log>, now: map<nat, Log>, F: nat, L: nat) {
    forall t {:trigger now[t]} | t in now ::
      || now[t].key.chain == 0 || (t in was && now[t].key.chain == was[t].key.chain)
      || (t == F && now[t].key.chain == L)
  }

  lemma ChainsOn(a: map<nat, Log>, b: map<nat, Log>, c: map<nat, Log>, F: nat, L: nat)
    requires ChainsBy(a, b, F, L) && ChainsBy(b, c, 0, 0)
    ensures ChainsBy(a, c, F, L)
  {
    forall t | t in c
      ensures c[t].key.chain == 0 || (t in a && c[t].key.chain == a[t].key.chain) || (t == F && c[t].key.chain == L)
    {
      assert c[t].key.chain == 0 || (t in b && c[t].key.chain == b[t].key.chain);
    }
  }

  lemma KeyChains(m: Media, t: nat, key: Key, L: nat)
    requires key.chain == 0 || key.chain == LogAt(m, t).key.chain || key.chain == L
    ensures ChainsBy(m.logs, WithKey(m, t, key).logs, t, L)
    ensures key.chain == 0 || key.chain == LogAt(m, t).key.chain ==> ChainsBy(m.logs, WithKey(m, t, key).logs, 0, 0)
  {
  }

  /** Only file i was written. */
  ghost predicate OthersSame(i: nat, was: seq<File>, now: seq<File>) {
    |now| == |was| && forall j {:trigger now[j]} | 0 <= j < |now| && j != i :: now[j] == was[j]
  }

  /** A file has the log fields that it had, or these. */
  ghost predicate MarkedBy(was: seq<File>, now: seq<File>, L: nat, stamp: nat) {
    |now| == |was| && forall i {:trigger now[i]} | 0 <= i < |now| ::
      (now[i].id == was[i].id || now[i].id == L) && (now[i].check == was[i].check || now[i].check == stamp)
  }

  /** The first j tables are new. */
  ghost predicate DoneUpTo(j: nat, files: seq<File>, L: nat, stamp: nat, old_t: seq<Table>, shots: seq<seq<LogPage>>)
  {
    j <= |files| == |old_t| == |shots| &&
    forall i {:trigger files[i]} | 0 <= i < j :: files[i] == File(After(old_t[i], shots[i]), L, stamp)
  }

  /** The spans of all tables are in memory. */
  ghost predicate InfoLoaded(log: Log, n: nat, info: seq<map<nat, Span>>) {
    |info| == n && (log.key.last > 0 ==> forall i: nat | i < n && i in log.info :: log.info[i] == info[i])
  }

  /** All tables have this log file and this time. */
  ghost predicate StandAt(files: seq<File>, id: nat, check: nat, tables: seq<Table>) {
    |files| == |tables| && forall i {:trigger files[i]} | 0 <= i < |files| :: files[i] == File(tables[i], id, check)
  }

  /** The tables are at the checkpoint of time d: they got the records in front of place q, which lies in file h. */
  ghost predicate Stands(files: seq<File>, st: Story, base: seq<Table>, h: nat, q: nat, d: nat) {
    && h < |st.ids| && |st.starts| == |st.ids| + 1 && st.starts[h] <= q <= st.starts[h + 1] && Parts(st.recs, q, d)
    && StandAt(files, st.ids[h], d, Before(base, st.recs, d + 1))
  }

  /** These are the times of the records that were replayed: those behind `last` up to d, all earlier than t. */
  ghost predicate SoFar(recs: seq<Rec>, last: nat, d: nat, t: nat, times: seq<nat>) {
    last <= d && (d == last || d < t) && times == Times(recs, last, d + 1)
  }

  /** The record at `pos` is not earlier than t, or there is none. */
  ghost predicate EndsAt(recs: seq<Rec>, pos: nat, t: nat) {
    pos < |recs| ==> recs[pos].stamp >= t
  }

  /** The replay stops at place pos: in front of it stand records that are earlier than t, or that the tables have, and
      there is none behind, or the first one is not earlier than t. */
  ghost predicate StopsAt(recs: seq<Rec>, last: nat, t: nat, pos: nat) {
    && pos <= |recs| && (forall k {:trigger recs[k]} | 0 <= k < pos :: recs[k].stamp < t || recs[k].stamp <= last)
    && (pos < |recs| ==> recs[pos].stamp >= t)
  }

  lemma StopsThere(recs: seq<Rec>, last: nat, d: nat, t: nat, times: seq<nat>, pos: nat)
    requires SoFar(recs, last, d, t, times) && Parts(recs, pos, d) && EndsAt(recs, pos, t)
    ensures StopsAt(recs, last, t, pos)
  {
  }

  /** Time does not stand still between two stamps. */
  function Tick(time: nat, last: nat): (t: nat)
    ensures t > last && t >= time && (t == time || t == last + 1)
  {
    if last >= time then last + 1 else time
  }

  /** What integrity_verify() makes of the current record. */
  datatype Verdict = Clean | Aborting | Redo

  /** Item `cur` as the code reads it: item 203 lies behind the page, where anything may stand. */
  function Seen(key: Key, behind: Item): Item {
    if key.cur < KEYROOM then ItemOf(key, key.cur) else behind
  }

  function VerdictOn(key: Key, behind: Item): Verdict {
    var item := Seen(key, behind);
    match item.result
    case Null => if item.first != 0 then Aborting else Clean
    case Prepared => Redo
    case _ => Clean
  }

  /** The current item was begun and got no result. */
  ghost predicate Unfinished(key: Key) {
    key.cur in key.items && key.items[key.cur].result == Null && key.items[key.cur].first != 0
  }

  /** Of log file L the current item is aborted without a time and counted, and nothing else is different. */
  ghost predicate GivenUp(was: Media, L: nat, m: Media) {
    && L in was.logs && m.files == was.files && m.logs.Keys == was.logs.Keys
    && (forall t | t in was.logs && t != L :: m.logs[t] == was.logs[t])
    && var (k, now) := (was.logs[L].key, m.logs[L].key);
       && k.cur in k.items && m.logs[L].info == was.logs[L].info && m.logs[L].data == was.logs[L].data
       && now.cur == k.cur + 1 && now.last == k.last && now.max == k.max && now.chain == k.chain
       && now.items == k.items[k.cur := Item(k.items[k.cur].first, k.items[k.cur].last, 0, Abort)]
  }

  /** What integrity_verify() writes to the newest log file L: an unfinished item is aborted, else nothing; a prepared
      item is to be redone. */
  ghost predicate Examined(was: Media, live: bool, L: nat, m: Media, redo: bool, st: Story, kept: Story) {
    var k := LogAt(was, L).key;
    && (redo <==> k.cur in k.items && k.items[k.cur].result == Prepared)
    && (if Unfinished(k) && live then GivenUp(was, L, m) && |st.starts| == |st.ids| + 1 && kept == Aborted(st)
        else m == was && kept == st)
  }

  /** The newest log file that a table names has a current item. */
  ghost predicate HasRoom(m: Media) {
    forall t {:trigger Newest(m, t)} | Newest(m, t) && t in m.logs :: m.logs[t].key.cur < KEYROOM
  }

  /** What a restart makes of the story: it stays, or its last record was aborted. */
  ghost predicate Kept(st: Story, now: Story) {
    |st.starts| == |st.ids| + 1 && (now == st || now == Aborted(st))
  }

  /** Where a restart ends: at the old checkpoint, or at the one that was under way; if `fair`, that is later than all
      before. */
  ghost predicate Landed(st: Story, old_t: seq<Table>, shots: seq<seq<LogPage>>, fair: bool, L: nat, now: Story,
      tables: seq<Table>)
  {
    (Kept(st, now) && tables == old_t) || Further(st, old_t, shots, fair, L, now, tables)
  }

  /** The checkpoint that was under way is in the story. */
  ghost predicate Further(st: Story, old_t: seq<Table>, shots: seq<seq<LogPage>>, fair: bool, L: nat, now: Story,
      tables: seq<Table>)
  {
    && |st.starts| == |st.ids| + 1 && |old_t| == |shots| && tables == News(old_t, shots)
    && exists cut: bool, stamp: nat ::
         now == Grown(st, L, cut, Rec(stamp, Commit, shots)) && (fair ==> stamp > DateOf(st.recs))
  }

  /** The last log file of the story names one that does not exist. */
  ghost predicate Lost(m: Media, st: Story) {
    var chain := LogAt(m, Last(st)).key.chain;
    chain != 0 && chain !in m.logs
  }

  class GlobalLogger {
    const disk: Disk
    const n: nat                          // number of tables
    const recMax: nat                     // (PAGESIZE - used_max) / sizeof(logger_hdr)
    const rotatePages: nat
    var isOpen: bool                      // log_file is not NULL
    var L: nat                            // the log file that is open, by its time stamp
    var timeStamp: nat
    var key: Key                          // key_page
    var info: seq<map<nat, Span>>         // LogInfo::key_page of every table

    /** A logger that opened no log file yet; what its key page holds was never written. */
    constructor (disk: Disk, n: nat, recMax: nat, rotatePages: nat, time: nat, page: Key)
      requires 0 < recMax <= KEYROOM
      ensures this.disk == disk && this.n == n && this.recMax == recMax && this.rotatePages == rotatePages && Made()
      ensures !isOpen && timeStamp == time && key == page
    {
      this.disk, this.n, this.recMax, this.rotatePages := disk, n, recMax, rotatePages;
      isOpen, L, timeStamp, key := false, 0, time, page;
      info := seq(n, _ => map[]);
    }

    ghost predicate Made()
      reads this
    {
      |info| == n && 0 < recMax <= KEYROOM
    }

    /** As long as the machine runs, memory agrees with the open log file. */
    ghost predicate Open()
      reads this, disk
    {
      && isOpen && Made()
      && (disk.budget > 0 ==> L in disk.m.logs && disk.m.logs[L].key == key && InfoLoaded(disk.m.logs[L], n, info))
    }

    /** The open log file can take records. */
    ghost predicate Loaded()
      reads this, disk
    {
      Open() && Fresh(key) && (disk.budget > 0 ==> Inited(disk.m.logs[L], n))
    }

    /** Between two checkpoints: all tables are at the last one. */
    ghost predicate AtRest(st: Story, tables: seq<Table>)
      reads this, disk
    {
      && Loaded() && n == |tables| && L == Last(st) <= timeStamp && ItemOf(key, key.cur).result != Prepared
      && Rests(disk.m, st, tables)
    }

    /** The same for a logger without an open log file. */
    ghost predicate Blank(st: Story, tables: seq<Table>)
      reads this, disk
    {
      !isOpen && Made() && n == |tables| && Rests(disk.m, st, tables)
    }

    /** Between two checkpoints; without an open log file, the next one will be later than the last. */
    ghost predicate Startable(now: nat, st: Story, tables: seq<Table>)
      reads this, disk
    {
      AtRest(st, tables) || (Blank(st, tables) && Last(st) < Tick(now, timeStamp))
    }

    /** While the log is written: the tables are at the last checkpoint, and the story will go on in the open file. */
    ghost predicate Writing(st: Story, tables: seq<Table>, cut: bool)
      reads this, disk
    {
      && Loaded() && n == |tables| && Last(st) <= L <= timeStamp && ItemOf(key, key.cur).result != Prepared
      && Rests(disk.m, st, tables)
      && (L > Last(st) ==> key.cur == 0 && key.chain == 0)
      && (disk.budget > 0 ==> Joined(disk.m.logs, Last(st), L, cut) && (key.chain == 0 || key.chain > L))
    }

    // ---------- prepare ----------

    /** The page writes of a rotation: the chain of the open log file, the spans of every table, the key page. */
    ghost function RotateWrites(open: bool): nat {
      n + if open then 2 else 1
    }

    /** init_log_file(): a new log file; the open one, if there is one, is chained to it. */
    method InitLogFile(now: nat, ghost st: Story, ghost tables: seq<Table>) returns (ghost cut: bool)
      requires Startable(now, st, tables)
      modifies this, disk
      ensures Writing(st, tables, cut) && disk.m.files == old(disk.m.files)
      ensures L == timeStamp == Tick(now, old(timeStamp)) && key == Key(n + 1, 0, recMax, 0, map[])
      ensures cut == (!old(isOpen) && LogAt(old(disk.m), Last(st)).key.chain != L)
      ensures ChainsBy(old(disk.m.logs), disk.m.logs, Last(st), L)
      ensures disk.budget == Left(old(disk.budget), RotateWrites(old(isOpen)))
      ensures forall i: nat | i < n :: info[i] == map[]
      ensures disk.budget > 0 ==>
                Last(st) in disk.m.logs &&
                disk.m.logs[Last(st)].key ==
                  if old(isOpen) then old(key).(chain := L) else LogAt(old(disk.m), Last(st)).key
    {
      hide Rests, ChainsBy;
      var t := if timeStamp >= now then timeStamp + 1 else now;
      cut := !isOpen && LogAt(disk.m, Last(st)).key.chain != t;
      RestsLast(disk.m, st, tables);
      SameChains(disk.m.logs, Last(st), t);
      if isOpen {
        key := key.(chain := t);
        Linked(old(key), t, st, tables);
        KeyChains(disk.m, L, key, t);
        disk.WriteKey(L, key);
      }
      ghost var linked := LogAt(disk.m, Last(st)).key;
      ghost var was := disk.m.logs;
      isOpen, L, timeStamp := true, t, t;
      key := Key(n + 1, 0, 0, 0, map[]);
      InitInfos(Last(st), linked, st, tables);
      ChainsOn(old(disk.m.logs), was, disk.m.logs, Last(st), L);
      was := disk.m.logs;
      FirstKey(Last(st), linked, cut, st, tables);
      ChainsOn(old(disk.m.logs), was, disk.m.logs, Last(st), L);
    }

    lemma SameChains(logs: map<nat, Log>, F: nat, L: nat)
      ensures ChainsBy(logs, logs, F, L)
    {
    }

    lemma RestsLast(m: Media, st: Story, tables: seq<Table>)
      requires Rests(m, st, tables)
      ensures Last(st) in m.logs
    {
    }

    lemma Linked(was: Key, t: nat, st: Story, tables: seq<Table>)
      requires Rests(disk.m, st, tables) && Fresh(was) && ItemOf(was, was.cur).result != Prepared && L == Last(st) < t
      requires disk.budget > 0 ==> disk.m.logs[L].key == was
      ensures disk.budget > 0 ==> Rests(WithKey(disk.m, L, was.(chain := t)), st, tables)
    {
      if disk.budget > 0 { RestsKey(disk.m, st, tables, L, was.(chain := t)); }
    }

    /** LogInfo::init() of table i. */
    method InitInfo(i: nat, ghost F: nat, ghost linked: Key, ghost st: Story, ghost tables: seq<Table>)
      requires Made() && i < n == |tables| && Rests(disk.m, st, tables) && Last(st) == F < L
      requires disk.budget > 0 ==> F in disk.m.logs && disk.m.logs[F].key == linked && InfosMade(i)
      modifies `info, disk
      ensures Made() && Rests(disk.m, st, tables) && disk.m.files == old(disk.m.files)
      ensures ChainsBy(old(disk.m.logs), disk.m.logs, 0, 0)
      ensures disk.budget == Left(old(disk.budget), 1) && info == old(info)[i := map[]]
      ensures disk.budget > 0 ==> F in disk.m.logs && disk.m.logs[F].key == linked
      ensures disk.budget > 0 ==> InfosMade(i + 1)
    {
      hide Rests, ChainsBy;
      info := info[i := map[]];
      RestsInfo(disk.m, st, tables, L, i, info[i]);
      disk.WriteInfo(L, i, info[i]);
    }

    /** The spans of the first i tables are in the new log file. */
    ghost predicate InfosMade(i: nat)
      reads this, disk
    {
      i <= |info| && forall j: nat | j < i :: j in LogAt(disk.m, L).info && LogAt(disk.m, L).info[j] == info[j]
    }

    /** LogInfo::init() of every table. */
    method InitInfos(ghost F: nat, ghost linked: Key, ghost st: Story, ghost tables: seq<Table>)
      requires Made() && n == |tables| && Rests(disk.m, st, tables) && Last(st) == F < L
      requires disk.budget > 0 ==> F in disk.m.logs && disk.m.logs[F].key == linked
      modifies `info, disk
      ensures Made() && Rests(disk.m, st, tables) && disk.m.files == old(disk.m.files)
      ensures ChainsBy(old(disk.m.logs), disk.m.logs, 0, 0)
      ensures disk.budget == Left(old(disk.budget), n) && forall j: nat | j < n :: info[j] == map[]
      ensures disk.budget > 0 ==> F in disk.m.logs && disk.m.logs[F].key == linked
      ensures disk.budget > 0 ==> InfosMade(n)
    {
      SameChains(disk.m.logs, 0, 0);
      assert InfosMade(0);
      hide Rests, ChainsBy, InfosMade;
      var i := 0;
      while i < n
        invariant 0 <= i <= n && Made() && Rests(disk.m, st, tables) && disk.m.files == old(disk.m.files)
        invariant ChainsBy(old(disk.m.logs), disk.m.logs, 0, 0)
        invariant disk.budget == Left(old(disk.budget), i) && forall j: nat | j < i :: info[j] == map[]
        invariant disk.budget > 0 ==> F in disk.m.logs && disk.m.logs[F].key == linked && InfosMade(i)
      {
        ghost var was := disk.m.logs;
        InitInfo(i, F, linked, st, tables);
        ChainsOn(old(disk.m.logs), was, disk.m.logs, 0, 0);
        i := i + 1;
      }
    }

    /** Page 0 of the new log file; now it can be loaded. */
    method FirstKey(ghost F: nat, ghost linked: Key, ghost cut: bool, ghost st: Story, ghost tables: seq<Table>)
      requires isOpen && Made() && n == |tables| && Rests(disk.m, st, tables) && Last(st) == F < L <= timeStamp
      requires key == Key(n + 1, 0, 0, 0, map[])
      requires disk.budget > 0 ==> F in disk.m.logs && disk.m.logs[F].key == linked && cut == (linked.chain != L)
      requires disk.budget > 0 ==> InfosMade(n)
      modifies `key, disk
      ensures Writing(st, tables, cut) && disk.m.files == old(disk.m.files)
      ensures key == Key(n + 1, 0, recMax, 0, map[]) && ChainsBy(old(disk.m.logs), disk.m.logs, 0, 0)
      ensures disk.budget == Left(old(disk.budget), 1)
      ensures disk.budget > 0 ==> F in disk.m.logs && disk.m.logs[F].key == linked
    {
      hide Rests, ChainsBy;
      key := key.(max := recMax);
      RestsKey(disk.m, st, tables, L, key);
      KeyChains(disk.m, L, key, 0);
      SameChains(disk.m.logs, 0, 0);
      disk.WriteKey(L, key);
    }

    /** A new log file is asked for, the open one is full, or it has too many pages. */
    predicate Rotates(needRotate: bool)
      reads this
    {
      needRotate || key.cur >= key.max || key.last > rotatePages
    }

    /** logger_check_rotate(): a new log file if one is asked for, the open one is full, or it has too many pages. */
    method CheckRotate(now: nat, needRotate: bool, ghost st: Story, ghost tables: seq<Table>)
      returns (at: nat, ghost cut: bool)
      requires Startable(now, st, tables)
      modifies this, disk
      ensures isOpen == (old(isOpen) || old(Rotates(needRotate))) && disk.m.files == old(disk.m.files)
      ensures old(Rotates(needRotate)) <==> needRotate || old(key.cur >= key.max) || old(key.last > rotatePages)
      ensures isOpen ==> Writing(st, tables, cut) && at == key.last && key.cur < key.max
      ensures isOpen ==> cut == (!old(isOpen) && LogAt(old(disk.m), Last(st)).key.chain != L)
      ensures !isOpen ==> disk.m == old(disk.m)
      ensures ChainsBy(old(disk.m.logs), disk.m.logs, Last(st), L)
      ensures if old(Rotates(needRotate)) then
                && L == timeStamp == Tick(now, old(timeStamp)) && key == Key(n + 1, 0, recMax, 0, map[])
                && disk.budget == Left(old(disk.budget), RotateWrites(old(isOpen)))
                && forall i: nat | i < n :: info[i] == map[]
              else
                && L == old(L) && timeStamp == old(timeStamp) && key == old(key) && info == old(info)
                && disk.m == old(disk.m) && disk.budget == old(disk.budget)
    {
      cut := false;
      if Rotates(needRotate) {
        cut := InitLogFile(now, st, tables);
      } else {
        SameChains(disk.m.logs, Last(st), L);
        if isOpen { Stays(st, tables); }
      }
      at := key.last;
    }

    lemma Stays(st: Story, tables: seq<Table>)
      requires AtRest(st, tables)
      ensures Writing(st, tables, false)
    {
    }

    /** The first i snapshots are saved below page `at`. */
    ghost predicate SavedUpTo(i: nat, at: nat, shots: seq<seq<LogPage>>)
      reads this, disk
    {
      && i <= |shots| == n && key.last <= at
      && (disk.budget > 0 ==>
            L in disk.m.logs && disk.m.logs[L].key == key &&
            forall j: nat {:trigger SavedBelow(disk.m.logs[L], j, shots[j], at)} | j < i ::
                SavedBelow(disk.m.logs[L], j, shots[j], at))
    }

    lemma KeepData(i: nat, at: nat, shots: seq<seq<LogPage>>, k: nat, page: LogPage)
      requires SavedUpTo(i, at, shots) && at <= k && disk.budget > 0
      ensures var log := WithData(disk.m, L, k, page).logs[L];
              forall j: nat {:trigger SavedBelow(log, j, shots[j], at)} | j < i :: SavedBelow(log, j, shots[j], at)
    {
      hide Piece;
      var log := WithData(disk.m, L, k, page).logs[L];
      forall j: nat | j < i
        ensures SavedBelow(log, j, shots[j], at)
      {
        assert SavedBelow(disk.m.logs[L], j, shots[j], at);
        SavedData(disk.m.logs[L], j, shots[j], at, k, page);
      }
    }

    lemma KeepInfo(i: nat, at: nat, end: nat, shots: seq<seq<LogPage>>, spans: map<nat, Span>)
      requires SavedUpTo(i, at, shots) && disk.budget > 0 && at <= end
      ensures var log := WithInfo(disk.m, L, i, spans).logs[L];
              forall j: nat {:trigger SavedBelow(log, j, shots[j], end)} | j < i :: SavedBelow(log, j, shots[j], end)
    {
      hide Piece;
      var log := WithInfo(disk.m, L, i, spans).logs[L];
      forall j: nat | j < i
        ensures SavedBelow(log, j, shots[j], end)
      {
        assert SavedBelow(disk.m.logs[L], j, shots[j], at);
        SavedFrame(disk.m.logs[L], j, shots[j], log);
      }
    }

    lemma NewSaved(log: Log, now: Log, i: nat, s: seq<LogPage>, at: nat, end: nat)
      requires Piece(log, at, |s|, s) && ShotOK(s) && 0 < at && end == at + |s|
      requires now.data == log.data && i in now.info && SpanOf(now.info[i], now.key.cur) == Span(at, end)
      ensures SavedBelow(now, i, s, end)
    {
      forall q | 0 <= q < |s|
        ensures PieceAt(now, at, s, q)
      {
        assert PieceAt(log, at, s, q);
      }
    }

    lemma WritingData(st: Story, tables: seq<Table>, cut: bool, k: nat, page: LogPage)
      requires Writing(st, tables, cut) && disk.budget > 0 && k >= key.last
      ensures var m := WithData(disk.m, L, k, page); Rests(m, st, tables) && Joined(m.logs, Last(st), L, cut)
    {
      hide Rests;
      RestsData(disk.m, st, tables, L, k, page);
    }

    lemma WritingInfo(st: Story, tables: seq<Table>, cut: bool, i: nat, span: Span)
      requires Writing(st, tables, cut) && disk.budget > 0 && i < n
      ensures var m := WithInfo(disk.m, L, i, info[i][key.cur := span]);
              Rests(m, st, tables) && Joined(m.logs, Last(st), L, cut)
    {
      hide Rests;
      var spans: map<nat, Span> := info[i][key.cur := span];
      forall j: nat | j < key.cur ensures SpanOf(spans, j) == SpanOf(disk.m.logs[L].info[i], j) {}
      RestsInfo(disk.m, st, tables, L, i, spans);
    }

    /** Page k of a snapshot. */
    method SavePage(i: nat, at: nat, k: nat, s: seq<LogPage>, ghost st: Story, ghost tables: seq<Table>,
        ghost cut: bool, ghost shots: seq<seq<LogPage>>)
      requires Writing(st, tables, cut) && SavedUpTo(i, at, shots) && k < |s|
      requires disk.budget > 0 ==> Piece(disk.m.logs[L], at, k, s)
      modifies disk
      ensures Writing(st, tables, cut) && SavedUpTo(i, at, shots)
      ensures disk.m.files == old(disk.m.files) && ChainsBy(old(disk.m.logs), disk.m.logs, 0, 0)
      ensures disk.budget == Left(old(disk.budget), 1) && LogAt(disk.m, L).key == LogAt(old(disk.m), L).key
      ensures disk.budget > 0 ==> Piece(disk.m.logs[L], at, k + 1, s)
    {
      hide Rests, SavedBelow, Joined, ChainsBy, Piece;
      if disk.budget > 0 {
        PieceMore(disk.m.logs[L], at, k, s);
        KeepData(i, at, shots, at + k, s[k]);
        WritingData(st, tables, cut, at + k, s[k]);
      }
      disk.WriteData(L, at + k, s[k]);
    }

    lemma NoPiece(log: Log, at: nat, s: seq<LogPage>)
      ensures Piece(log, at, 0, s)
    {
    }

    /** The pages of a snapshot go to the log file from page `at` on. */
    method SavePages(i: nat, at: nat, s: seq<LogPage>, ghost st: Story, ghost tables: seq<Table>, ghost cut: bool,
        ghost shots: seq<seq<LogPage>>)
      returns (end: nat)
      requires Writing(st, tables, cut) && i < n && SavedUpTo(i, at, shots)
      modifies disk
      ensures Writing(st, tables, cut) && end == at + |s| && SavedUpTo(i, at, shots)
      ensures disk.m.files == old(disk.m.files) && ChainsBy(old(disk.m.logs), disk.m.logs, 0, 0)
      ensures disk.budget == Left(old(disk.budget), |s|) && LogAt(disk.m, L).key == LogAt(old(disk.m), L).key
      ensures disk.budget > 0 ==> Piece(disk.m.logs[L], at, |s|, s)
    {
      SameChains(disk.m.logs, 0, 0);
      NoPiece(LogAt(disk.m, L), at, s);
      hide Rests, Joined, SavedBelow, ChainsBy, Piece;
      end := at;
      var k := 0;
      while k < |s|
        invariant 0 <= k <= |s| && end == at + k && Writing(st, tables, cut) && SavedUpTo(i, at, shots)
        invariant disk.m.files == old(disk.m.files) && ChainsBy(old(disk.m.logs), disk.m.logs, 0, 0)
        invariant disk.budget == Left(old(disk.budget), k) && LogAt(disk.m, L).key == LogAt(old(disk.m), L).key
        invariant disk.budget > 0 ==> Piece(disk.m.logs[L], at, k, s)
      {
        ghost var was := disk.m.logs;
        SavePage(i, at, k, s, st, tables, cut, shots);
        ChainsOn(old(disk.m.logs), was, disk.m.logs, 0, 0);
        end, k := end + 1, k + 1;
      }
    }

    /** LogInfo::prepare(): the snapshot of table i goes to the log file from page `at` on, its span to the table's
        page. */
    method SaveShot(i: nat, at: nat, s: seq<LogPage>, ghost st: Story, ghost tables: seq<Table>, ghost cut: bool,
        ghost shots: seq<seq<LogPage>>)
      returns (end: nat)
      requires Writing(st, tables, cut) && i < n && SavedUpTo(i, at, shots) && s == shots[i] && ShotOK(s)
      modifies `info, disk
      ensures Writing(st, tables, cut) && end == at + |s| && SavedUpTo(i + 1, end, shots)
      ensures disk.m.files == old(disk.m.files) && ChainsBy(old(disk.m.logs), disk.m.logs, 0, 0)
      ensures disk.budget == Left(old(disk.budget), |s| + 1) && LogAt(disk.m, L).key == LogAt(old(disk.m), L).key
    {
      hide Rests, SavedBelow, Joined, Piece, ChainsBy;
      end := SavePages(i, at, s, st, tables, cut, shots);
      var spans: map<nat, Span> := info[i][key.cur := Span(at, end)];
      if disk.budget > 0 {
        KeepInfo(i, at, end, shots, spans);
        WritingInfo(st, tables, cut, i, Span(at, end));
        NewSaved(disk.m.logs[L], WithInfo(disk.m, L, i, spans).logs[L], i, s, at, end);
      }
      info := info[i := spans];
      ghost var was := disk.m.logs;
      disk.WriteInfo(L, i, spans);
      ChainsOn(old(disk.m.logs), was, disk.m.logs, 0, 0);
    }

    /** The snapshots of all tables, one behind the other. */
    method SaveShots(from: nat, shots: seq<seq<LogPage>>, ghost st: Story, ghost tables: seq<Table>, ghost cut: bool)
      returns (at: nat)
      requires Writing(st, tables, cut) && key.last <= from && ShotsFit(shots, n)
      modifies `info, disk
      ensures Writing(st, tables, cut) && SavedUpTo(n, at, shots)
      ensures disk.m.files == old(disk.m.files) && ChainsBy(old(disk.m.logs), disk.m.logs, 0, 0)
      ensures disk.budget == Left(old(disk.budget), Writes(shots)) && at + n == from + Writes(shots)
              && LogAt(disk.m, L).key == LogAt(old(disk.m), L).key
    {
      SameChains(disk.m.logs, 0, 0);
      WritesAll(shots);
      hide Rests, SavedBelow, Joined, Piece, ShotOK, ChainsBy, Writes;
      at := from;
      var i := 0;
      while i < n
        invariant i <= n && Writing(st, tables, cut) && SavedUpTo(i, at, shots)
        invariant disk.m.files == old(disk.m.files) && ChainsBy(old(disk.m.logs), disk.m.logs, 0, 0)
        invariant at + i == from + Writes(shots[..i]) && disk.budget == Left(old(disk.budget), Writes(shots[..i]))
        invariant LogAt(disk.m, L).key == LogAt(old(disk.m), L).key
      {
        WritesMore(shots, i);
        ghost var was := disk.m.logs;
        at := SaveShot(i, at, shots[i], st, tables, cut, shots);
        ChainsOn(old(disk.m.logs), was, disk.m.logs, 0, 0);
        i := i + 1;
      }
    }

    lemma WritingKey(st: Story, tables: seq<Table>, cut: bool, now: Key)
      requires Writing(st, tables, cut) && disk.budget > 0 && Onward(key, now, L) && now.chain == key.chain
      requires ItemOf(now, now.cur).result != Prepared
      ensures var m := WithKey(disk.m, L, now); Rests(m, st, tables) && Joined(m.logs, Last(st), L, cut)
    {
      hide Rests;
      RestsKey(disk.m, st, tables, L, now);
    }

    /** The record is prepared, on disk and in memory; the first j tables have it. */
    ghost predicate Committing(j: nat, stamp: nat, st: Story, cut: bool, old_t: seq<Table>, shots: seq<seq<LogPage>>)
      reads this, disk
    {
      && Loaded() && 0 < L && n == |old_t| && ShotsFit(shots, n) && ItemOf(key, key.cur).result == Prepared
      && Recoverable(disk.m, st, old_t, shots, true) && |disk.m.files| == n
      && (disk.budget > 0 ==>
            Begun(disk.m, st, L, cut, old_t, shots) && DoneUpTo(j, disk.m.files, L, stamp, old_t, shots))
    }

    /** The key page is written, with the same chain. */
    method WriteKeyPage()
      requires disk.budget > 0 ==> LogAt(disk.m, L).key.chain == key.chain
      modifies disk
      ensures ChainsBy(old(disk.m.logs), disk.m.logs, 0, 0)
      ensures if old(disk.budget) > 0 then disk.m == WithKey(old(disk.m), L, key) && disk.budget == old(disk.budget) - 1
              else disk.m == old(disk.m) && disk.budget == 0
    {
      SameChains(disk.m.logs, 0, 0);
      if disk.budget > 0 { KeyChains(disk.m, L, key, 0); }
      hide ChainsBy;
      disk.WriteKey(L, key);
    }

    /** The record gets its first page. */
    method OpenRecord(at: nat, ghost st: Story, ghost tables: seq<Table>, ghost cut: bool)
      requires Writing(st, tables, cut) && key.cur < key.max
      modifies `key, disk
      ensures Writing(st, tables, cut)
      ensures disk.m.files == old(disk.m.files) && ChainsBy(old(disk.m.logs), disk.m.logs, 0, 0)
      ensures key == old(key).(items := old(key).items[key.cur := ItemOf(old(key), old(key).cur).(first := at)])
      ensures disk.budget == Left(old(disk.budget), 1) && (old(disk.budget) > 0 ==> LogAt(disk.m, L).key == key)
    {
      hide Rests, Joined, ChainsBy;
      var now := key.(items := key.items[key.cur := ItemOf(key, key.cur).(first := at)]);
      if disk.budget > 0 { WritingKey(st, tables, cut, now); }
      key := now;
      WriteKeyPage();
    }

    /** The key page of the record once it is prepared. */
    function PreparedKey(at: nat): Key
      reads this
    {
      key.(last := at, items := key.items[key.cur := ItemOf(key, key.cur).(last := at, result := Prepared)])
    }

    lemma PreparedFresh(at: nat)
      requires Fresh(key) && key.cur < key.max && key.last <= at
      ensures var now := PreparedKey(at); Fresh(now) && ItemOf(now, now.cur).result == Prepared
    {
    }

    lemma PreparedFacts(at: nat, shots: seq<seq<LogPage>>, st: Story, tables: seq<Table>, cut: bool)
      requires Writing(st, tables, cut) && key.cur < key.max && SavedUpTo(n, at, shots) && disk.budget > 0
      ensures var m := WithKey(disk.m, L, PreparedKey(at));
              Begun(m, st, L, cut, tables, shots) && Recoverable(m, st, tables, shots, true)
              && DoneUpTo(0, m.files, L, 0, tables, shots) && Inited(m.logs[L], n) && InfoLoaded(m.logs[L], n, info)
    {
      RestsKnown(disk.m, st, tables);
      hide Rests, Joined, SavedBelow, Begun, Recoverable;
      Prepares(disk.m, st, L, cut, tables, shots, PreparedKey(at));
    }

    /** The one write that makes the record count. */
    method CloseRecord(at: nat, shots: seq<seq<LogPage>>, ghost st: Story, ghost tables: seq<Table>, ghost cut: bool)
      requires Writing(st, tables, cut) && key.cur < key.max && SavedUpTo(n, at, shots) && ShotsFit(shots, n)
      modifies `key, disk
      ensures Committing(0, 0, st, cut, tables, shots)
      ensures disk.m.files == old(disk.m.files) && ChainsBy(old(disk.m.logs), disk.m.logs, 0, 0)
      ensures key == old(PreparedKey(at)) && disk.budget == Left(old(disk.budget), 1)
      ensures LogAt(disk.m, L).key == if old(disk.budget) > 0 then key else LogAt(old(disk.m), L).key
    {
      RestsKnown(disk.m, st, tables);
      if disk.budget > 0 {
        PreparedFacts(at, shots, st, tables, cut);
      } else {
        OldRecoverable(disk.m, st, tables, shots, true);
      }
      PreparedFresh(at);
      hide Rests, Joined, SavedUpTo, Begun, Recoverable, ChainsBy, DoneUpTo, Fresh, ShotsFit, ItemOf, Inited,
        InfoLoaded;
      key := PreparedKey(at);
      WriteKeyPage();
    }

    lemma RestsKnown(m: Media, st: Story, tables: seq<Table>)
      requires Rests(m, st, tables)
      ensures |m.files| == |tables| > 0 && Last(st) > 0
    {
    }

    lemma OldRecoverable(m: Media, st: Story, tables: seq<Table>, shots: seq<seq<LogPage>>, fair: bool)
      requires Rests(m, st, tables) && |tables| == |shots|
      ensures Recoverable(m, st, tables, shots, fair)
    {
    }

    /** prepare(): the snapshots of all tables go to the log file; then the record counts.  Without an open log file,
        and if none is begun, the first write goes through a null pointer and ends the program. */
    method Prepare(now: nat, needRotate: bool, shots: seq<seq<LogPage>>, ghost st: Story, ghost tables: seq<Table>)
      returns (alive: bool, ghost cut: bool)
      requires Startable(now, st, tables) && ShotsFit(shots, n)
      modifies this, disk
      ensures alive == (old(isOpen) || old(Rotates(needRotate)))
      ensures disk.m.files == old(disk.m.files) && ChainsBy(old(disk.m.logs), disk.m.logs, Last(st), L)
      ensures alive ==> Committing(0, 0, st, cut, tables, shots) && L <= timeStamp
      ensures alive ==> cut == (!old(isOpen) && LogAt(old(disk.m), Last(st)).key.chain != L)
      ensures !alive ==> disk.m == old(disk.m) && disk.budget == old(disk.budget)
      ensures if old(Rotates(needRotate)) then L == timeStamp == Tick(now, old(timeStamp)) && key.cur == 0
              else L == old(L) && timeStamp == old(timeStamp) && key.cur == old(key.cur)
      ensures alive ==>
                var rotate := if old(Rotates(needRotate)) then RotateWrites(old(isOpen)) else 0;
                var first := if old(Rotates(needRotate)) then n + 1 else old(key.last);
                && disk.budget == Left(old(disk.budget), rotate + Writes(shots) + 2)
                && key.last + n == first + Writes(shots) && key.cur in key.items
                && key.items[key.cur] == Item(first, key.last, 0, Prepared)
                && (old(disk.budget) > rotate ==>
                      key.cur in LogAt(disk.m, L).key.items && LogAt(disk.m, L).key.items[key.cur].first == first)
    {
      hide Rests, Joined, SavedBelow, Begun, Recoverable, ChainsBy;
      var at;
      at, cut := CheckRotate(now, needRotate, st, tables);
      alive := isOpen;
      if alive {
        ghost var was := disk.m.logs;
        OpenRecord(at, st, tables, cut);
        ChainsOn(old(disk.m.logs), was, disk.m.logs, Last(st), L);
        was := disk.m.logs;
        at := SaveShots(at, shots, st, tables, cut);
        ChainsOn(old(disk.m.logs), was, disk.m.logs, Last(st), L);
        was := disk.m.logs;
        CloseRecord(at, shots, st, tables, cut);
        ChainsOn(old(disk.m.logs), was, disk.m.logs, Last(st), L);
      }
    }

    // ---------- commit and redo ----------

    /** The snapshot of table i in record rec, as the machine can read it. */
    ghost predicate Reads(i: nat, rec: nat, s: seq<LogPage>)
      reads this, disk
    {
      && |info| == n && i < n && i < |disk.m.files|
      && (disk.budget > 0 ==>
            && L in disk.m.logs && i in disk.m.logs[L].info && info[i] == disk.m.logs[L].info[i]
            && ShotOf(disk.m.logs[L], i, rec) == s && ShotOK(s))
    }

    /** restore_page(): the saved pages of table i but for the magic page. */
    method RestorePages(i: nat, at: nat, end: nat, ghost s: seq<LogPage>)
      requires i < |disk.m.files|
      requires disk.budget > 0 ==>
               L in disk.m.logs && at <= end && end - at < |s| && forall q: nat | q < |s| ::
               s[q] == PageAt(disk.m.logs[L], at + q)
      modifies disk
      ensures disk.m.logs == old(disk.m.logs) && OthersSame(i, old(disk.m.files), disk.m.files)
      ensures disk.budget == Left(old(disk.budget), if at < end then end - at else 0)
      ensures old(disk.budget) == 0 ==> disk.m == old(disk.m) && disk.budget == 0
      ensures old(disk.budget) > 0 ==>
                && at <= end && end - at < |s|
                && var (f, was) := (disk.m.files[i], old(disk.m.files[i]));
                   f.id == was.id && f.check == was.check && f.table.magic == was.table.magic
                   && exists k: nat ::
                      k <= end - at && f.table.pages == Write(was.table.pages, s[..k])
                      && (disk.budget > 0 ==> k == end - at)
    {
      hide Write;
      ghost var p := disk.m.files[i].table.pages;
      NothingWritten(p, s);
      var k := at;
      ghost var w: nat := 0;
      while k < end
        invariant at <= k && (at <= end ==> k <= end) && disk.budget == Left(old(disk.budget), k - at)
        invariant disk.m.logs == old(disk.m.logs) && OthersSame(i, old(disk.m.files), disk.m.files)
        invariant old(disk.budget) == 0 ==> disk.m == old(disk.m) && disk.budget == 0
        invariant old(disk.budget) > 0 ==>
                    && disk.m.files[i].id == old(disk.m.files[i].id)
                    && disk.m.files[i].check == old(disk.m.files[i].check)
                    && disk.m.files[i].table.magic == old(disk.m.files[i].table.magic)
                    && w <= k - at && w <= |s| && disk.m.files[i].table.pages == Write(p, s[..w])
                    && (disk.budget > 0 ==> w == k - at)
      {
        var page, f := PageAt(LogAt(disk.m, L), k), disk.m.files[i];
        if disk.budget > 0 {
          assert s[k - at] == PageAt(disk.m.logs[L], at + (k - at));
          OneMorePage(p, s, k - at);
          w := w + 1;
        }
        disk.WriteFile(i, File(Table(f.table.magic, f.table.pages[page.target := page.body]), f.id, f.check));
        k := k + 1;
      }
    }

    lemma ShotIs(log: Log, i: nat, rec: nat, s: seq<LogPage>)
      requires i in log.info && ShotOf(log, i, rec) == s && ShotOK(s)
      ensures var span := SpanOf(log.info[i], rec); 0 < span.first <= span.last == span.first + |s|
      ensures forall q: nat | q < |s| :: s[q] == PageAt(log, SpanOf(log.info[i], rec).first + q)
    {
      assert NOSHOT[0].target == 1;
      hide PageAt;
    }

    lemma SomePages(was: Table, s: seq<LogPage>, k: nat, pages: map<nat, Body>)
      requires k < |s| && pages == Write(was.pages, s[..k])
      ensures Partly(Table(was.magic, pages), was, s)
    {
      hide Write, Partly;
      PartlyWritten(was, s, k, Table(was.magic, pages));
    }

    /** The first writes to a table: its new id, and the saved pages. */
    method CommitPages(i: nat, first: nat, end: nat, ghost s: seq<LogPage>)
      requires i < |disk.m.files|
      requires disk.budget > 0 ==>
               L in disk.m.logs && end == first + |s| - 1 && s != [] && forall q: nat | q < |s| ::
               s[q] == PageAt(disk.m.logs[L], first + q)
      modifies disk
      ensures disk.m.logs == old(disk.m.logs) && OthersSame(i, old(disk.m.files), disk.m.files)
      ensures disk.budget == Left(old(disk.budget), |s|)
      ensures old(disk.budget) == 0 ==> disk.m == old(disk.m) && disk.budget == 0
      ensures var (f, was) := (disk.m.files[i], old(disk.m.files[i]));
              || f == was
              || (old(disk.budget) > 0 && f.id == L && f.check == was.check && Partly(f.table, was.table, s))
      ensures disk.budget > 0 ==>
                s != [] && disk.m.files[i].id == L
                    && disk.m.files[i].table.pages == Write(old(disk.m.files[i].table.pages), s[..|s| - 1])
    {
      hide Write, Partly;
      var f := disk.m.files[i];
      if disk.budget > 0 {
        NothingWritten(f.table.pages, s);
        SomePages(f.table, s, 0, f.table.pages);
      }
      disk.WriteFile(i, f.(id := L));
      ghost var b := disk.budget;
      RestorePages(i, first, end, s);
      if b > 0 {
        ghost var k: nat :|
          && k <= end - first && disk.m.files[i].table.pages == Write(f.table.pages, s[..k])
          && (disk.budget > 0 ==> k == end - first);
        SomePages(f.table, s, k, disk.m.files[i].table.pages);
        assert disk.m.files[i].table == Table(f.table.magic, disk.m.files[i].table.pages);
      }
    }

    lemma AfterPages(t: Table, s: seq<LogPage>, pages: map<nat, Body>)
      requires s != [] && pages == Write(t.pages, s[..|s| - 1])
      ensures Table(s[|s| - 1].body, pages) == After(t, s) && Partly(After(t, s), t, s)
    {
      hide Write;
      PartlyWritten(t, s, |s| - 1, After(t, s));
    }

    /** LogInfo::commit(): table i takes the id of the log file, the saved pages, and last the magic page. */
    method CommitTable(i: nat, rec: nat, stamp: nat, ghost s: seq<LogPage>)
      requires Reads(i, rec, s)
      modifies disk
      ensures disk.m.logs == old(disk.m.logs) && OthersSame(i, old(disk.m.files), disk.m.files)
      ensures disk.budget == Left(old(disk.budget), |s| + 1)
      ensures old(disk.budget) == 0 ==> disk.m == old(disk.m) && disk.budget == 0
      ensures var (f, was) := (disk.m.files[i], old(disk.m.files[i]));
              || f == was
              || (old(disk.budget) > 0 && f.id == L && (f.check == was.check || f.check == stamp)
                  && Partly(f.table, was.table, s))
      ensures disk.budget > 0 ==> disk.m.files[i] == File(After(old(disk.m.files[i].table), s), L, stamp)
    {
      hide Write, Partly, After;
      if disk.budget > 0 { ShotIs(disk.m.logs[L], i, rec, s); }
      var span := SpanOf(info[i], rec);
      var f := disk.m.files[i];
      ghost var t := f.table;
      f := f.(id := L);
      if span.first <= span.last - 1 {
        CommitPages(i, span.first, span.last - 1, s);
        f := disk.m.files[i];
        if disk.budget > 0 { AfterPages(t, s, f.table.pages); }
        f := File(Table(PageAt(LogAt(disk.m, L), span.last - 1).body, f.table.pages), L, f.check);
      } else if disk.budget > 0 {
        AfterNothing(t, s);
      }
      f := f.(check := stamp);
      disk.WriteFile(i, f);
    }

    lemma AfterNothing(t: Table, s: seq<LogPage>)
      requires s == []
      ensures After(t, s) == t && Partly(t, t, s)
    {
    }

    lemma ReadsShot(i: nat, stamp: nat, st: Story, cut: bool, old_t: seq<Table>, shots: seq<seq<LogPage>>)
      requires Committing(i, stamp, st, cut, old_t, shots) && i < n
      ensures Reads(i, key.cur, shots[i])
      ensures disk.budget > 0 ==> disk.m.files[i].id > 0 && Partly(disk.m.files[i].table, old_t[i], shots[i])
    {
      if disk.budget > 0 {
        assert Ready(disk.m, L, old_t, shots) && Inited(disk.m.logs[L], n);
        SpanIs(disk.m, L, old_t, shots, i);
        hide Ready, Recoverable;
        SavedIs(disk.m.logs[L], i, shots[i]);
      }
    }

    /** After the writes of CommitTable(), all or some of them. */
    lemma Stepped(was: Media, now: Media, st: Story, cut: bool, old_t: seq<Table>, shots: seq<seq<LogPage>>, i: nat)
      requires Begun(was, st, L, cut, old_t, shots) && Recoverable(was, st, old_t, shots, true) && 0 < L
               && now.logs == was.logs
      requires OthersSame(i, was.files, now.files) && i < |now.files| && i < |shots|
      requires now.files[i] == was.files[i] || (now.files[i].id == L
               && Partly(now.files[i].table, was.files[i].table, shots[i]))
      ensures Begun(now, st, L, cut, old_t, shots) && Recoverable(now, st, old_t, shots, true)
    {
      hide Begun, Recoverable, Partly;
      if now.files[i] == was.files[i] {
        assert now.files == was.files;
        assert now == was;
      } else {
        Steps(was, st, L, cut, old_t, shots, i, now.files[i]);
        assert now.files == was.files[i := now.files[i]];
        assert now == WithFile(was, i, now.files[i]);
      }
    }

    /** Table i in the loop of commit() and redo(). */
    method ApplyTable(redo: bool, i: nat, stamp: nat, ghost st: Story, ghost cut: bool, ghost old_t: seq<Table>,
        ghost shots: seq<seq<LogPage>>)
      requires Committing(i, stamp, st, cut, old_t, shots) && i < n
      modifies disk
      ensures disk.m.logs == old(disk.m.logs)
      ensures Committing(i + 1, stamp, st, cut, old_t, shots) && MarkedBy(old(disk.m.files), disk.m.files, L, stamp)
      ensures i < |shots| && disk.budget == Left(old(disk.budget), |shots[i]| + 1)
    {
      ReadsShot(i, stamp, st, cut, old_t, shots);
      assert i < |shots| == |disk.m.files| && Reads(i, key.cur, shots[i]);
      hide Recoverable, Begun, After, Reads, Partly, DoneUpTo, MarkedBy, ShotsFit;
      ghost var was := disk.m;
      ghost var live := disk.budget > 0;
      if !redo || disk.m.files[i].id != 0 {
        CommitTable(i, key.cur, stamp, shots[i]);
        MarkedOne(i, was.files, disk.m.files, L, stamp);
        if live { Stepped(was, disk.m, st, cut, old_t, shots, i); }
        if disk.budget > 0 { DoneMore(i, was.files, disk.m.files, L, stamp, old_t, shots); }
      } else {
        MarkedOne(i, was.files, disk.m.files, L, stamp);
      }
    }

    lemma MarkedOne(i: nat, was: seq<File>, now: seq<File>, L: nat, stamp: nat)
      requires was == now || (OthersSame(i, was, now) && i < |now|)
      requires i < |now| == |was| ==>
               (now[i].id == was[i].id || now[i].id == L) && (now[i].check == was[i].check || now[i].check == stamp)
      ensures MarkedBy(was, now, L, stamp)
    {
    }

    lemma DoneMore(i: nat, was: seq<File>, now: seq<File>, L: nat, stamp: nat, old_t: seq<Table>,
        shots: seq<seq<LogPage>>)
      requires DoneUpTo(i, was, L, stamp, old_t, shots) && OthersSame(i, was, now) && i < |now|
      requires Partly(was[i].table, old_t[i], shots[i]) && now[i] == File(After(was[i].table, shots[i]), L, stamp)
      ensures DoneUpTo(i + 1, now, L, stamp, old_t, shots)
    {
      Redone(was[i].table, old_t[i], shots[i]);
    }

    /** The loop of commit() and of redo(), which passes over tables without a logger_id, and the write that closes
        the record. */
    method Apply(redo: bool, timestamp: nat, ghost st: Story, ghost cut: bool, ghost old_t: seq<Table>,
        ghost shots: seq<seq<LogPage>>)
      requires Committing(0, 0, st, cut, old_t, shots) && L <= timeStamp
      modifies this, disk
      ensures Recoverable(disk.m, st, old_t, shots, timeStamp > DateOf(st.recs))
      ensures MarkedBy(old(disk.m.files), disk.m.files, L, timeStamp)
      ensures ChainsBy(old(disk.m.logs), disk.m.logs, 0, 0)
      ensures L == old(L) && timeStamp == Tick(timestamp, old(timeStamp)) && key == Closed(old(key), Commit, timeStamp)
      ensures disk.budget == Left(old(disk.budget), Writes(shots) + 1)
      ensures disk.budget > 0 ==> |st.starts| == |st.ids| + 1
      ensures disk.budget > 0 ==> AtRest(Grown(st, L, cut, Rec(timeStamp, Commit, shots)), News(old_t, shots))
    {
      WritesAll(shots);
      hide Recoverable, Begun, After, Rests, ChainsBy, Writes;
      timeStamp := if timestamp <= timeStamp then timeStamp + 1 else timestamp;
      var i := 0;
      while i < n
        invariant i <= n && Committing(i, timeStamp, st, cut, old_t, shots) && L == old(L) && key == old(key)
        invariant timeStamp == Tick(timestamp, old(timeStamp)) && disk.m.logs == old(disk.m.logs)
        invariant MarkedBy(old(disk.m.files), disk.m.files, L, timeStamp)
        invariant disk.budget == Left(old(disk.budget), Writes(shots[..i]))
      {
        WritesMore(shots, i);
        ApplyTable(redo, i, timeStamp, st, cut, old_t, shots);
        i := i + 1;
      }
      Finish(st, cut, old_t, shots);
    }

    /** The write that closes the record. */
    method Finish(ghost st: Story, ghost cut: bool, ghost old_t: seq<Table>, ghost shots: seq<seq<LogPage>>)
      requires Committing(n, timeStamp, st, cut, old_t, shots) && L <= timeStamp
      modifies `key, disk
      ensures Recoverable(disk.m, st, old_t, shots, timeStamp > DateOf(st.recs))
      ensures disk.m.files == old(disk.m.files) && ChainsBy(old(disk.m.logs), disk.m.logs, 0, 0)
      ensures key == Closed(old(key), Commit, timeStamp) && disk.budget == Left(old(disk.budget), 1)
      ensures disk.budget > 0 ==> |st.starts| == |st.ids| + 1
      ensures disk.budget > 0 ==> AtRest(Grown(st, L, cut, Rec(timeStamp, Commit, shots)), News(old_t, shots))
    {
      hide Recoverable, Begun, After, Rests, ChainsBy;
      var item := ItemOf(key, key.cur);
      key := key.(items := key.items[key.cur := item.(result := Commit, stamp := timeStamp)], cur := key.cur + 1);
      if disk.budget > 0 {
        Closes(disk.m, st, L, cut, old_t, shots, timeStamp);
        DoneRecoverable(WithKey(disk.m, L, key), st, L, cut, timeStamp, old_t, shots, timeStamp > DateOf(st.recs));
      } else {
        Weaker(disk.m, st, old_t, shots, true, timeStamp > DateOf(st.recs));
      }
      WriteKeyPage();
    }

    lemma DoneRecoverable(m: Media, st: Story, L: nat, cut: bool, stamp: nat, old_t: seq<Table>,
        shots: seq<seq<LogPage>>, fair: bool)
      requires Done(m, st, L, cut, stamp, old_t, shots, fair)
      ensures Recoverable(m, st, old_t, shots, fair)
    {
    }

    /** One checkpoint of all tables.  Whenever the machine stops, a restart finds the old checkpoint or this one; if it
        does not stop, all tables are at this one, and the story has one more record: this checkpoint and its time.
        Without an open log file a new one is begun, which the last one does not name, or the program ends. */
    method Checkpoint(now: nat, needRotate: bool, timestamp: nat, shots: seq<seq<LogPage>>, ghost st: Story,
        ghost tables: seq<Table>)
      returns (alive: bool, ghost cut: bool)
      requires Startable(now, st, tables) && ShotsFit(shots, n)
      modifies this, disk
      ensures alive == (old(isOpen) || old(Rotates(needRotate)))
      ensures Recoverable(disk.m, st, tables, shots, timeStamp > DateOf(st.recs))
      ensures MarkedBy(old(disk.m.files), disk.m.files, L, timeStamp)
      ensures ChainsBy(old(disk.m.logs), disk.m.logs, Last(st), L)
      ensures !alive ==> disk.m == old(disk.m) && disk.budget == old(disk.budget)
      ensures var rotate := old(Rotates(needRotate));
              alive ==>
                && Spent(old(disk.budget), rotate, old(isOpen), n, shots, disk.budget)
                && L == (if rotate then Tick(now, old(timeStamp)) else old(L))
                && timeStamp == Tick(timestamp, if rotate then L else old(timeStamp))
                && key.cur == (if rotate then 1 else old(key.cur) + 1)
      ensures alive ==> cut == (!old(isOpen) && LogAt(old(disk.m), Last(st)).key.chain != L)
      ensures alive && disk.budget > 0 ==> |st.starts| == |st.ids| + 1
      ensures alive && disk.budget > 0 ==>
                AtRest(Grown(st, L, cut, Rec(timeStamp, Commit, shots)), News(tables, shots))
    {
      hide Recoverable, Rests, Begun, ChainsBy;
      alive, cut := Prepare(now, needRotate, shots, st, tables);
      if alive {
        ghost var was := disk.m.logs;
        Apply(false, timestamp, st, cut, tables, shots);
        ChainsOn(old(disk.m.logs), was, disk.m.logs, Last(st), L);
      } else {
        OldRecoverable(disk.m, st, tables, shots, timeStamp > DateOf(st.recs));
      }
    }

    // ---------- restart ----------

    method MaxLoggerId() returns (t: nat)
      requires |disk.m.files| > 0
      ensures Newest(disk.m, t)
    {
      t := disk.m.files[0].id;
      ghost var w := 0;
      var i := 0;
      while i < |disk.m.files|
        invariant 0 <= i <= |disk.m.files| && 0 <= w < |disk.m.files| && disk.m.files[w].id == t
        invariant forall j {:trigger disk.m.files[j]} | 0 <= j < i :: disk.m.files[j].id <= t
      {
        if disk.m.files[i].id > t {
          t, w := disk.m.files[i].id, i;
        }
        i := i + 1;
      }
    }

    /** load_log_file(); a file that does not exist cannot be read. */
    method LoadLogFile(t: nat) returns (ok: bool)
      requires Made()
      modifies this
      ensures Made() && L == timeStamp == t && ok == (t in disk.m.logs)
      ensures ok ==> Open() && key == disk.m.logs[t].key && InfoLoaded(disk.m.logs[t], n, info)
    {
      isOpen, L, timeStamp := true, t, t;
      if t !in disk.m.logs {
        return false;
      }
      key := disk.m.logs[t].key;
      if key.last > 0 {
        var i := 0;
        while i < n
          invariant 0 <= i <= n && isOpen && Made() && L == timeStamp == t && key == disk.m.logs[t].key
          invariant forall j: nat | j < i && j in disk.m.logs[t].info :: disk.m.logs[t].info[j] == info[j]
        {
          if i in disk.m.logs[t].info {
            info := info[i := disk.m.logs[t].info[i]];
          }
          i := i + 1;
        }
      }
      return true;
    }

    /** All tables are at the checkpoint that was under way. */
    ghost predicate LaterAt(st: Story, old_t: seq<Table>, shots: seq<seq<LogPage>>, fair: bool, cut: bool, stamp: nat)
      reads this, disk
    {
      && |old_t| == |shots| && |st.starts| == |st.ids| + 1 && (fair ==> stamp > DateOf(st.recs))
      && AtRest(Grown(st, L, cut, Rec(stamp, Commit, shots)), News(old_t, shots))
    }

    /** The record of the open log file is prepared. */
    ghost predicate ToRedo(st: Story, old_t: seq<Table>, shots: seq<seq<LogPage>>)
      reads this, disk
    {
      exists cut: bool :: Committing(0, 0, st, cut, old_t, shots)
    }

    /** What the newest log file lets a restart do. */
    lemma FileOpened(st: Story, old_t: seq<Table>, shots: seq<seq<LogPage>>, fair: bool)
      requires Recoverable(disk.m, st, old_t, shots, fair) && Newest(disk.m, L) && n == |old_t| && Open()
      requires ShotsFit(shots, n) && key == LogAt(disk.m, L).key && L == timeStamp
      ensures Loaded() && n == |disk.m.files| > 0 && |st.starts| == |st.ids| + 1
      ensures Rests(disk.m, st, old_t) ==> AtRest(st, old_t)
      ensures ItemOf(key, key.cur).result == Prepared ==> ToRedo(st, old_t, shots)
      ensures ItemOf(key, key.cur).result != Prepared ==>
                || AtRest(st, old_t)
                || (key.cur !in key.items
                    && exists cut: bool, stamp: nat :: LaterAt(st, old_t, shots, fair, cut, stamp))
    {
      NewestTells(disk.m, L, st, old_t, shots, fair);
      assert Shape(st);
      hide Recoverable, Rests, Done, Underway, Newest, ShotsFit, ToRedo, LaterAt;
      if ItemOf(key, key.cur).result == Prepared {
        var cut :| Underway(disk.m, st, L, cut, old_t, shots);
        Redoing(st, cut, old_t, shots);
      } else if !Rests(disk.m, st, old_t) {
        var cut, stamp :| Done(disk.m, st, L, cut, stamp, old_t, shots, fair);
        IsLater(st, old_t, shots, fair, cut, stamp);
      }
    }

    lemma Redoing(st: Story, cut: bool, old_t: seq<Table>, shots: seq<seq<LogPage>>)
      requires Underway(disk.m, st, L, cut, old_t, shots) && Loaded() && n == |old_t| && ShotsFit(shots, n)
      requires key == LogAt(disk.m, L).key && ItemOf(key, key.cur).result == Prepared
      ensures ToRedo(st, old_t, shots)
    {
      UnderwayIs(disk.m, st, L, cut, old_t, shots);
      hide Recoverable, ShotsFit, Partly, Chron, Joined, Describes;
      assert Committing(0, 0, st, cut, old_t, shots);
    }

    lemma IsLater(st: Story, old_t: seq<Table>, shots: seq<seq<LogPage>>, fair: bool, cut: bool, stamp: nat)
      requires Done(disk.m, st, L, cut, stamp, old_t, shots, fair) && Loaded() && n == |old_t| && L == timeStamp
      requires ItemOf(key, key.cur).result != Prepared
      ensures LaterAt(st, old_t, shots, fair, cut, stamp)
    {
      hide Rests;
    }

    lemma UnderwayIs(m: Media, st: Story, L: nat, cut: bool, old_t: seq<Table>, shots: seq<seq<LogPage>>)
      requires Underway(m, st, L, cut, old_t, shots)
      ensures Recoverable(m, st, old_t, shots, true)
    {
    }

    /** The write that aborts the record that was not prepared. */
    method AbortRecord(ghost st: Story, ghost tables: seq<Table>) returns (ghost kept: Story)
      requires AtRest(st, tables) && key.cur in key.items && |st.starts| == |st.ids| + 1
      modifies `key, disk
      ensures Kept(st, kept) && Rests(disk.m, kept, tables)
      ensures disk.m.files == old(disk.m.files) && ChainsBy(old(disk.m.logs), disk.m.logs, 0, 0)
      ensures disk.budget > 0 ==> AtRest(kept, tables)
      ensures key == Closed(old(key), Abort, 0) && disk.budget == Left(old(disk.budget), 1)
      ensures if old(disk.budget) > 0 then GivenUp(old(disk.m), L, disk.m) && kept == Aborted(st)
              else disk.m == old(disk.m) && kept == st
    {
      hide Rests, ChainsBy;
      kept := st;
      var item := ItemOf(key, key.cur);
      key := key.(items := key.items[key.cur := item.(result := Abort)], cur := key.cur + 1);
      if disk.budget > 0 {
        Aborts(disk.m, st, tables);
        kept := Aborted(st);
      }
      WriteKeyPage();
    }

    /** The newest log file that a table names is open. */
    method OpenNewest(ghost st: Story, ghost old_t: seq<Table>, ghost shots: seq<seq<LogPage>>, ghost fair: bool)
      requires Recoverable(disk.m, st, old_t, shots, fair) && n == |old_t| && ShotsFit(shots, n) && Made()
      requires HasRoom(disk.m)
      modifies this
      ensures Newest(disk.m, L) && L == timeStamp && L in disk.m.logs && key == disk.m.logs[L].key
              && key.cur < KEYROOM && |st.starts| == |st.ids| + 1 && n == |old_t|
      ensures Rests(disk.m, st, old_t) ==> AtRest(st, old_t)
      ensures ItemOf(key, key.cur).result == Prepared ==> ToRedo(st, old_t, shots)
      ensures ItemOf(key, key.cur).result != Prepared ==>
                || AtRest(st, old_t)
                || (key.cur !in key.items
                    && exists cut: bool, stamp: nat :: LaterAt(st, old_t, shots, fair, cut, stamp))
    {
      hide Recoverable, Rests, Newest, Begun, Inited, ToRedo, Further, ItemOf, ShotsFit;
      NewestKnown(st, old_t, shots, fair);
      var t := MaxLoggerId();
      var ok := LoadLogFile(t);
      FileOpened(st, old_t, shots, fair);
    }

    /** integrity_verify(): opens the newest log file that a table names; an unfinished record is aborted,
        a prepared one is to be redone. */
    method IntegrityVerify(behind: Item, ghost st: Story, ghost old_t: seq<Table>, ghost shots: seq<seq<LogPage>>,
        ghost fair: bool)
      returns (redo: bool, ghost kept: Story, ghost now: Story, ghost tables: seq<Table>)
      requires Recoverable(disk.m, st, old_t, shots, fair) && n == |old_t| && ShotsFit(shots, n) && Made()
      requires HasRoom(disk.m)
      modifies this, disk
      ensures Newest(old(disk.m), L) && L == timeStamp
      ensures disk.m.files == old(disk.m.files) && ChainsBy(old(disk.m.logs), disk.m.logs, 0, 0)
      ensures Examined(old(disk.m), old(disk.budget) > 0, L, disk.m, redo, st, kept)
      ensures disk.budget == Left(old(disk.budget), if Unfinished(LogAt(old(disk.m), L).key) then 1 else 0)
      ensures Kept(st, kept) && Recoverable(disk.m, kept, old_t, shots, fair)
      ensures redo ==> kept == st && ToRedo(st, old_t, shots)
      ensures !redo && disk.budget > 0 ==> AtRest(now, tables) && Landed(st, old_t, shots, fair, L, now, tables)
      ensures Rests(old(disk.m), st, old_t) ==> !redo && Rests(disk.m, kept, old_t) && now == kept && tables == old_t
    {
      SameChains(disk.m.logs, 0, 0);
      hide Recoverable, Rests, Newest, Begun, Inited, ChainsBy, ToRedo, Further, Seen, Unfinished, GivenUp, ItemOf,
        Examined, LaterAt, AtRest;
      OpenNewest(st, old_t, shots, fair);
      kept, now, tables := st, st, old_t;
      SeenItem(key, behind, disk.m, disk.budget > 0, L, st);
      var item := Seen(key, behind);
      if item.result == Null && item.first != 0 {
        kept := AbortRecord(st, old_t);
        OldRecoverable(disk.m, kept, old_t, shots, fair);
        now, redo := kept, false;
        GaveUp(old(disk.m), old(disk.budget) > 0, L, disk.m, st, kept);
        return;
      }
      redo := item.result == Prepared;
      if !redo {
        now, tables := Found(st, old_t, shots, fair);
      }
    }

    lemma Found(st: Story, old_t: seq<Table>, shots: seq<seq<LogPage>>, fair: bool)
      returns (now: Story, tables: seq<Table>)
      requires |st.starts| == |st.ids| + 1
      requires AtRest(st, old_t) || exists cut: bool, stamp: nat :: LaterAt(st, old_t, shots, fair, cut, stamp)
      ensures AtRest(now, tables) && Landed(st, old_t, shots, fair, L, now, tables)
      ensures AtRest(st, old_t) ==> now == st && tables == old_t
    {
      hide AtRest, Further;
      now, tables := st, old_t;
      if !AtRest(st, old_t) {
        var cut: bool, stamp: nat :| LaterAt(st, old_t, shots, fair, cut, stamp);
        now, tables := Grown(st, L, cut, Rec(stamp, Commit, shots)), News(old_t, shots);
        FurtherIs(st, old_t, shots, fair, L, cut, stamp);
      }
    }

    lemma SeenItem(key: Key, behind: Item, m: Media, live: bool, L: nat, st: Story)
      requires key.cur < KEYROOM && key == LogAt(m, L).key
      ensures var item := Seen(key, behind);
              && item == ItemOf(key, key.cur)
              && (if item.result == Null && item.first != 0 then Unfinished(key) && key.cur in key.items
                  else Examined(m, live, L, m, item.result == Prepared, st, st))
    {
    }

    lemma GaveUp(was: Media, live: bool, L: nat, m: Media, st: Story, kept: Story)
      requires Unfinished(LogAt(was, L).key) && |st.starts| == |st.ids| + 1
      requires if live then GivenUp(was, L, m) && kept == Aborted(st) else m == was && kept == st
      ensures Examined(was, live, L, m, false, st, kept)
    {
    }

    lemma FurtherIs(st: Story, old_t: seq<Table>, shots: seq<seq<LogPage>>, fair: bool, L: nat, cut: bool, stamp: nat)
      requires |st.starts| == |st.ids| + 1 && |old_t| == |shots| && (fair ==> stamp > DateOf(st.recs))
      ensures Further(st, old_t, shots, fair, L, Grown(st, L, cut, Rec(stamp, Commit, shots)), News(old_t, shots))
    {
      hide Grown, News, DateOf;
    }

    lemma NewestKnown(st: Story, old_t: seq<Table>, shots: seq<seq<LogPage>>, fair: bool)
      requires Recoverable(disk.m, st, old_t, shots, fair)
      ensures |disk.m.files| == |old_t| > 0 && forall t | Newest(disk.m, t) :: t in disk.m.logs
    {
      forall t | Newest(disk.m, t) ensures t in disk.m.logs { NewestTells(disk.m, t, st, old_t, shots, fair); }
    }

    /** A restart: integrity_verify() and, if it says so, redo(). */
    method Restart(behind: Item, timestamp: nat, ghost st: Story, ghost old_t: seq<Table>,
        ghost shots: seq<seq<LogPage>>, ghost fair: bool)
      returns (redo: bool, ghost kept: Story, ghost now: Story, ghost tables: seq<Table>)
      requires Recoverable(disk.m, st, old_t, shots, fair) && n == |old_t| && ShotsFit(shots, n) && Made()
      requires HasRoom(disk.m) && (fair ==> timestamp > DateOf(st.recs))
      modifies this, disk
      ensures Kept(st, kept) && Recoverable(disk.m, kept, old_t, shots, fair)
      ensures Newest(old(disk.m), L) && MarkedBy(old(disk.m.files), disk.m.files, L, timeStamp)
      ensures ChainsBy(old(disk.m.logs), disk.m.logs, 0, 0)
      ensures timeStamp == if redo then Tick(timestamp, L) else L
      ensures Examined(old(disk.m), old(disk.budget) > 0, L, if redo then old(disk.m) else disk.m, redo, st, kept)
      ensures RestartSpent(old(disk.budget), old(disk.m), L, redo, shots, disk.budget)
      ensures disk.budget > 0 ==> AtRest(now, tables) && Landed(st, old_t, shots, fair, L, now, tables)
      ensures disk.budget > 0 && redo ==> Further(st, old_t, shots, fair, L, now, tables)
      ensures Rests(old(disk.m), st, old_t) ==>
                !redo && Rests(disk.m, kept, old_t) && now == kept && tables == old_t
    {
      hide Recoverable, Rests, Newest, Begun, ChainsBy, Further;
      redo, kept, now, tables := IntegrityVerify(behind, st, old_t, shots, fair);
      if redo {
        ghost var cut: bool :| Committing(0, 0, st, cut, old_t, shots);
        ghost var was := disk.m.logs;
        Apply(true, timestamp, st, cut, old_t, shots);
        ChainsOn(old(disk.m.logs), was, disk.m.logs, 0, 0);
        Weaker(disk.m, st, old_t, shots, timeStamp > DateOf(st.recs), fair);
        if disk.budget > 0 {
          now, tables := Grown(st, L, cut, Rec(timeStamp, Commit, shots)), News(old_t, shots);
          FurtherIs(st, old_t, shots, fair, L, cut, timeStamp);
        }
      }
    }

    /** Whether a restart would read an item behind the key page. */
    method KeyFull() returns (full: bool)
      requires |disk.m.files| > 0 && forall t | Newest(disk.m, t) :: t in disk.m.logs
      ensures full == !HasRoom(disk.m)
    {
      var t := MaxLoggerId();
      full := disk.m.logs[t].key.cur >= KEYROOM;
    }

    // ---------- restore ----------

    /** File k of the story is open, which can be read from file f on. */
    ghost predicate Reading(st: Story, base: seq<Table>, f: nat, k: nat)
      reads this, disk
    {
      && Made() && ReadChain(disk.m.logs, n, st, f) && Timely(st.recs) && |base| == n == |disk.m.files|
      && f <= k < |st.ids| == |st.starts| - 1
      && L == st.ids[k] && L in disk.m.logs && key == disk.m.logs[L].key && InfoLoaded(disk.m.logs[L], n, info)
      && st.starts[k] + key.cur == st.starts[k + 1] <= |st.recs|
    }

    /** The open file k is read up to item `it`; the tables got all records up to time d, the last of them from file
        h. */
    ghost predicate Replaying(st: Story, base: seq<Table>, f: nat, k: nat, it: nat, h: nat, q: nat, d: nat)
      reads this, disk
    {
      && Reading(st, base, f, k) && it <= key.cur && Parts(st.recs, st.starts[k] + it, d)
      && h <= k && (disk.budget > 0 ==> Stands(disk.m.files, st, base, h, q, d))
    }

    /** restore(timestamp, rec_index): LogInfo::commit() for every table. */
    method RestoreRecord(rec: nat, stamp: nat, ghost shots: seq<seq<LogPage>>)
      requires Made() && |disk.m.files| == n && L in disk.m.logs && Inited(disk.m.logs[L], n)
               && InfoLoaded(disk.m.logs[L], n, info)
      requires ShotsFit(shots, n) && forall i: nat {:trigger ShotOf(disk.m.logs[L], i, rec)} | i < n ::
               ShotOf(disk.m.logs[L], i, rec) == shots[i]
      modifies disk
      ensures disk.m.logs == old(disk.m.logs) && |disk.m.files| == n
      ensures disk.budget > 0 ==>
                old(disk.budget) > 0 && forall i {:trigger disk.m.files[i]} | 0 <= i < n ::
                    disk.m.files[i] == File(After(old(disk.m.files[i].table), shots[i]), L, stamp)
    {
      hide ShotOf, After, Partly;
      var i := 0;
      while i < n
        invariant i <= n && disk.m.logs == old(disk.m.logs) && |disk.m.files| == n
        invariant disk.budget > 0 ==> old(disk.budget) > 0
        invariant disk.budget > 0 ==>
                  forall j {:trigger disk.m.files[j]} | 0 <= j < i ::
                  disk.m.files[j] == File(After(old(disk.m.files[j].table), shots[j]), L, stamp)
        invariant disk.budget > 0 ==>
                  forall j {:trigger disk.m.files[j]} | i <= j < n :: disk.m.files[j] == old(disk.m.files[j])
      {
        CommitTable(i, rec, stamp, shots[i]);
        i := i + 1;
      }
    }

    /** The record at `it` as the story has it. */
    lemma RecordOpen(st: Story, base: seq<Table>, f: nat, k: nat, it: nat, h: nat, q: nat, d: nat)
      requires Replaying(st, base, f, k, it, h, q, d) && it < key.cur
      ensures var rec := st.recs[st.starts[k] + it]; var item := ItemOf(key, it);
              && Inited(disk.m.logs[L], n) && rec.stamp == item.stamp && rec.result == item.result
              && Ordered(st.recs, n)
              && (item.result == Commit ==> rec.shots == ShotsOf(disk.m.logs[L], n, it))
    {
      RecordAt(disk.m.logs, n, st, k, it);
      ToldAt(disk.m.logs, n, st, k);
    }

    lemma ShotsAre(log: Log, rec: nat, shots: seq<seq<LogPage>>)
      requires shots == ShotsOf(log, n, rec)
      ensures forall i: nat {:trigger ShotOf(log, i, rec)} | i < n :: ShotOf(log, i, rec) == shots[i]
    {
      hide ShotOf;
      forall i: nat | i < n ensures ShotOf(log, i, rec) == shots[i] { assert shots[i] == ShotOf(log, i, rec); }
    }

    /** A committed record is replayed. */
    method RestoreOne(it: nat, ghost st: Story, ghost base: seq<Table>, ghost f: nat, ghost k: nat, ghost h: nat,
        ghost q: nat, ghost d: nat)
      requires Replaying(st, base, f, k, it, h, q, d) && it < key.cur && ItemOf(key, it).result == Commit
      modifies disk
      ensures Replaying(st, base, f, k, it + 1, k, st.starts[k] + it + 1, ItemOf(key, it).stamp)
              && disk.m.logs == old(disk.m.logs)
      ensures d < ItemOf(key, it).stamp && (disk.budget > 0 ==> old(disk.budget) > 0)
    {
      RecordOpen(st, base, f, k, it, h, q, d);
      ghost var pos := st.starts[k] + it;
      ghost var rec := st.recs[pos];
      PartsNext(st.recs, n, pos, d);
      Applied(base, st.recs, n, pos, d);
      ShotsAre(disk.m.logs[L], it, rec.shots);
      hide ReadChain, Before, ShotOf, ShotsOf, ShotsFit, After, Parts, Inited, InfoLoaded, Ordered, ItemOf;
      ghost var was := disk.m.files;
      RestoreRecord(it, ItemOf(key, it).stamp, rec.shots);
      if disk.budget > 0 {
        NowAt(was, disk.m.files, Before(base, st.recs, d + 1), rec.shots, st.ids[h], d, L, rec.stamp);
      }
    }

    lemma NowAt(was: seq<File>, now: seq<File>, tables: seq<Table>, shots: seq<seq<LogPage>>, id: nat, d: nat, L: nat,
        stamp: nat)
      requires StandAt(was, id, d, tables) && |now| == |was| == |shots|
      requires forall i {:trigger now[i]} | 0 <= i < |now| :: now[i] == File(After(was[i].table, shots[i]), L, stamp)
      ensures StandAt(now, L, stamp, News(tables, shots))
    {
      hide After;
      forall i | 0 <= i < |now|
        ensures now[i] == File(News(tables, shots)[i], L, stamp)
      {
        assert was[i] == File(tables[i], id, d);
      }
    }

    /** The records of the open file from item `start` on, as long as they are earlier than t. */
    method RestoreFile(start: nat, t: nat, times0: seq<nat>, ghost st: Story, ghost base: seq<Table>, ghost f: nat,
        ghost k: nat, ghost h0: nat, ghost q0: nat, ghost d0: nat, ghost last: nat)
      returns (going: bool, times: seq<nat>, it: nat, ghost h: nat, ghost q: nat, ghost d: nat)
      requires Replaying(st, base, f, k, start, h0, q0, d0) && SoFar(st.recs, last, d0, t, times0)
      modifies disk
      ensures Replaying(st, base, f, k, it, h, q, d) && SoFar(st.recs, last, d, t, times)
      ensures if going then it == key.cur else st.starts[k] + it < |st.recs| && st.recs[st.starts[k] + it].stamp >= t
      ensures disk.m.logs == old(disk.m.logs) && (disk.budget > 0 ==> old(disk.budget) > 0)
    {
      hide ReadChain, Before, ShotOf, ShotsOf, Times, Parts, Ordered, Stands;
      going, times, it, h, q, d := true, times0, start, h0, q0, d0;
      while going && it < key.cur
        invariant it <= key.cur && Replaying(st, base, f, k, it, h, q, d) && SoFar(st.recs, last, d, t, times)
        invariant disk.m.logs == old(disk.m.logs) && (disk.budget > 0 ==> old(disk.budget) > 0)
        invariant !going ==> st.starts[k] + it < |st.recs| && st.recs[st.starts[k] + it].stamp >= t
        decreases going, key.cur - it
      {
        RecordOpen(st, base, f, k, it, h, q, d);
        var item := ItemOf(key, it);
        going := item.stamp < t;
        if going {
          if item.result == Commit {
            AppliedTimes(st.recs, n, st.starts[k] + it, last, d);
            RestoreOne(it, st, base, f, k, h, q, d);
            times, h, q, d := times + [item.stamp], k, st.starts[k] + it + 1, item.stamp;
          } else {
            Passed(st.recs, n, st.starts[k] + it, d);
          }
          it := it + 1;
        }
      }
    }

    /** The records that the tables have already. */
    method SkipOld(last: nat, ghost st: Story, ghost base: seq<Table>, ghost f: nat, ghost p: nat) returns (it: nat)
      requires Reading(st, base, f, f) && Stands(disk.m.files, st, base, f, p, last)
      ensures Replaying(st, base, f, f, it, f, p, last)
    {
      hide ReadChain, Ordered, InfoLoaded, StandAt;
      it := 0;
      while it < key.cur && ItemOf(key, it).stamp <= last
        invariant 0 <= it <= key.cur
        invariant forall j {:trigger st.recs[j]} | st.starts[f] <= j < st.starts[f] + it :: st.recs[j].stamp <= last
      {
        RecordStamp(st, base, f, f, it);
        it := it + 1;
      }
      if it < key.cur { RecordStamp(st, base, f, f, it); }
      SkipParts(st.recs, p, last, st.starts[f], st.starts[f] + it, st.starts[f + 1]);
    }

    lemma RecordStamp(st: Story, base: seq<Table>, f: nat, k: nat, it: nat)
      requires Reading(st, base, f, k) && it < key.cur
      ensures st.recs[st.starts[k] + it].stamp == ItemOf(key, it).stamp
    {
      RecordAt(disk.m.logs, n, st, k, it);
    }

    /** The file that the open one is chained to; behind the story it is empty, or does not exist. */
    method OpenNext(ghost st: Story, ghost base: seq<Table>, ghost f: nat, ghost k: nat) returns (ok: bool)
      requires Reading(st, base, f, k) && key.chain != 0
      modifies this
      ensures Made()
      ensures ok ==> if k + 1 < |st.ids| then Reading(st, base, f, k + 1) else key.cur == 0 && key.chain == 0
      ensures k + 1 == |st.ids| ==> (ok <==> !Lost(disk.m, st))
      ensures !ok ==> k + 1 == |st.ids|
    {
      NextFile(disk.m.logs, n, st, f, k);
      if k + 1 < |st.ids| { NextFile(disk.m.logs, n, st, f, k + 1); }
      hide ReadChain;
      ok := LoadLogFile(key.chain);
    }

    /** The records up to place pos are read; behind the story there is at most an empty file. */
    ghost predicate Walking(st: Story, base: seq<Table>, f: nat, k: nat, orphan: bool, it: nat, h: nat, q: nat,
        d: nat, pos: nat)
      reads this, disk
    {
      if orphan then
        Made() && key.cur == 0 && key.chain == 0 && it == 0 && pos == |st.recs| && Parts(st.recs, pos, d)
            && (disk.budget > 0 ==> Stands(disk.m.files, st, base, h, q, d))
      else
        Replaying(st, base, f, k, it, h, q, d) && pos == st.starts[k] + it
    }

    /** Where the loop over the files ends. */
    lemma Ended(st: Story, base: seq<Table>, f: nat, k: nat, orphan: bool, h: nat, q: nat, d: nat, pos: nat)
      requires Walking(st, base, f, k, orphan, key.cur, h, q, d, pos) && (orphan || key.chain == 0 || k + 1 == |st.ids|)
      ensures pos == |st.recs| && (!orphan && key.chain == 0 ==> !Lost(disk.m, st))
    {
      if !orphan { NextFile(disk.m.logs, n, st, f, k); }
    }

    /** The rest of the open file. */
    method ReadOn(start: nat, t: nat, times0: seq<nat>, ghost st: Story, ghost base: seq<Table>, ghost f: nat,
        ghost k: nat, ghost orphan: bool, ghost h0: nat, ghost q0: nat, ghost d0: nat, ghost pos0: nat,
        ghost last: nat)
      returns (going: bool, times: seq<nat>, it: nat, ghost h: nat, ghost q: nat, ghost d: nat, ghost pos: nat)
      requires Walking(st, base, f, k, orphan, start, h0, q0, d0, pos0)
      requires SoFar(st.recs, last, d0, t, times0)
      modifies disk
      ensures Walking(st, base, f, k, orphan, it, h, q, d, pos)
      ensures SoFar(st.recs, last, d, t, times)
      ensures if going then it == key.cur else pos < |st.recs| && EndsAt(st.recs, pos, t)
      ensures disk.m.logs == old(disk.m.logs) && (disk.budget > 0 ==> old(disk.budget) > 0)
    {
      hide ReadChain, Times, Parts, Ordered, Stands, InfoLoaded;
      going, times, it, h, q, d, pos := true, times0, start, h0, q0, d0, pos0;
      if it < key.cur {
        going, times, it, h, q, d := RestoreFile(it, t, times, st, base, f, k, h, q, d, last);
        pos := st.starts[k] + it;
      }
    }

    /** On to the next file. */
    method TurnOver(ghost st: Story, ghost base: seq<Table>, ghost f: nat, ghost k0: nat, ghost h: nat, ghost q: nat,
        ghost d: nat, ghost pos: nat)
      returns (ok: bool, ghost k: nat, ghost orphan: bool)
      requires key.chain != 0 && Walking(st, base, f, k0, false, key.cur, h, q, d, pos)
      modifies this
      ensures ok ==> Walking(st, base, f, k, orphan, 0, h, q, d, pos) && k0 <= k < |st.ids| && (orphan || k == k0 + 1)
      ensures ok && orphan ==> !Lost(disk.m, st)
      ensures !ok ==> Made() && pos == |st.recs| && Lost(disk.m, st)
    {
      hide ReadChain, Parts, Ordered, Stands, InfoLoaded;
      if k0 + 1 == |st.ids| { Ended(st, base, f, k0, false, h, q, d, pos); }
      k, orphan := k0, k0 + 1 == |st.ids|;
      if !orphan { k := k + 1; }
      ok := OpenNext(st, base, f, k0);
    }

    lemma Walked(st: Story, base: seq<Table>, f: nat, k: nat, orphan: bool, it: nat, h: nat, q: nat, d: nat, pos: nat)
      requires Walking(st, base, f, k, orphan, it, h, q, d, pos)
      ensures Made() && Parts(st.recs, pos, d) && (disk.budget > 0 ==> Stands(disk.m.files, st, base, h, q, d))
              && (orphan ==> key.chain == 0)
    {
    }

    /** The loop over the chained files; place `pos` is the first that is not replayed. */
    method RestoreChain(start: nat, t: nat, ghost st: Story, ghost base: seq<Table>, ghost f: nat, ghost p: nat,
        ghost last: nat)
      returns (ok: bool, times: seq<nat>, ghost h: nat, ghost q: nat, ghost d: nat, ghost pos: nat)
      requires Replaying(st, base, f, f, start, f, p, last)
      modifies this, disk
      ensures Made() && disk.m.logs == old(disk.m.logs) && (disk.budget > 0 ==>
              old(disk.budget) > 0 && Stands(disk.m.files, st, base, h, q, d))
      ensures SoFar(st.recs, last, d, t, times)
      ensures Parts(st.recs, pos, d) && EndsAt(st.recs, pos, t)
      ensures ok <==> pos < |st.recs| || !Lost(disk.m, st)
    {
      AtStart(st, base, f, start, p, last);
      ok, times, h, q, d, pos := true, [], f, p, last, st.starts[f] + start;
      assert Walking(st, base, f, f, false, start, h, q, d, pos) && f < |st.ids|;
      hide ReadChain, Times, Parts, Stands, Walking, Replaying, SoFar, Lost;
      var it: nat, more := start, true;
      ghost var k: nat, orphan := f, false;
      while more
        invariant Walking(st, base, f, k, orphan, it, h, q, d, pos) && k < |st.ids|
        invariant disk.m.logs == old(disk.m.logs) && (disk.budget > 0 ==> old(disk.budget) > 0)
        invariant SoFar(st.recs, last, d, t, times)
        invariant !more ==> EndsAt(st.recs, pos, t) && (pos < |st.recs| || !Lost(disk.m, st))
        invariant orphan ==> !Lost(disk.m, st)
        decreases if !more then 0 else if orphan then 1 else 2 + |st.ids| - k
      {
        var going;
        going, times, it, h, q, d, pos := ReadOn(it, t, times, st, base, f, k, orphan, h, q, d, pos, last);
        Walked(st, base, f, k, orphan, it, h, q, d, pos);
        more := going && key.chain != 0;
        if more {
          ok, k, orphan := TurnOver(st, base, f, k, h, q, d, pos);
          if !ok {
            return;
          }
          it := 0;
        } else if going {
          Ended(st, base, f, k, orphan, h, q, d, pos);
        }
      }
      Walked(st, base, f, k, orphan, it, h, q, d, pos);
    }

    lemma AtStart(st: Story, base: seq<Table>, f: nat, start: nat, p: nat, last: nat)
      requires Replaying(st, base, f, f, start, f, p, last)
      ensures forall t: nat :: SoFar(st.recs, last, last, t, [])
    {
      NoTimes(st.recs, 0, last, last + 1);
      assert st.recs[..0] == [];
    }

    /** restore(t): from tables that stand at some checkpoint on, the records that are earlier than t are replayed,
        through all chained files.  Then the tables are those of the last checkpoint before t, or as they were if
        that is not later. */
    method Restore(t: nat, ghost st: Story, ghost base: seq<Table>, ghost f: nat, ghost p: nat)
      returns (ok: bool, times: seq<nat>, ghost h: nat, ghost q: nat, ghost d: nat, ghost pos: nat)
      requires |disk.m.files| > 0 && Reading(st, base, f, f)
      requires Stands(disk.m.files, st, base, f, p, disk.m.files[0].check)
      modifies this, disk
      ensures disk.m.logs == old(disk.m.logs) && (disk.budget > 0 ==> old(disk.budget) > 0)
      ensures var last := old(disk.m.files[0].check);
              && times == Times(st.recs, last, Bound(last, t))
              && Before(base, st.recs, d + 1) == Before(base, st.recs, Bound(last, t))
              && (disk.budget > 0 ==> Stands(disk.m.files, st, base, h, q, d))
      ensures StopsAt(st.recs, old(disk.m.files[0].check), t, pos) && (ok <==> pos < |st.recs| || !Lost(disk.m, st))
      ensures ok ==> L == old(L) && key == old(key)
    {
      hide ReadChain, Parts, Before, Times, InfoLoaded;
      var last, id := disk.m.files[0].check, disk.m.files[0].id;
      assert disk.m.files[0] == File(Before(base, st.recs, last + 1)[0], st.ids[f], last);
      var it := SkipOld(last, st, base, f, p);
      ok, times, h, q, d, pos := RestoreChain(it, t, st, base, f, p, last);
      OrderOf(disk.m.logs, n, st, f);
      StopsThere(st.recs, last, d, t, times, pos);
      hide Stands, Ordered, StopsAt;
      Completed(base, st.recs, n, pos, last, d, t);
      if ok {
        ok := LoadLogFile(id);
      }
    }

    lemma OrderOf(logs: map<nat, Log>, n: nat, st: Story, f: nat)
      requires ReadChain(logs, n, st, f) && Timely(st.recs)
      ensures Ordered(st.recs, n)
    {
    }
  }

  lemma SkipParts(recs: seq<Rec>, p: nat, last: nat, a: nat, pos: nat, e: nat)
    requires Parts(recs, p, last) && a <= p <= e <= |recs| && a <= pos <= e
    requires forall j {:trigger recs[j]} | a <= j < pos :: recs[j].stamp <= last
    requires pos < e ==> recs[pos].stamp > last
    ensures Parts(recs, pos, last)
  {
    if pos < p { PartAt(recs, p, last, pos); }
  }

  lemma PartAt(recs: seq<Rec>, p: nat, last: nat, k: nat)
    requires Parts(recs, p, last) && k < p
    ensures recs[k].stamp <= last
  {
  }

  // ---------- a log file that is not later than the last one ----------

  /** Table 0 got its pages from log file t, table 1 did not yet. */
  function Halfway(m: Media, t: nat, log: Log, table: Table, stamp: nat): Media
    requires |m.files| > 0
  {
    Media(m.files[0 := File(table, t, stamp)], m.logs[t := log])
  }

  /** A checkpoint in a log file older than the last one is not atomic: stopped between two tables, nothing leads a
      restart to it. */
  lemma OlderFile(m: Media, st: Story, old_t: seq<Table>, shots: seq<seq<LogPage>>, t: nat, log: Log, stamp: nat)
    requires Rests(m, st, old_t) && t < Last(st) && |old_t| == |shots| >= 2
    requires After(old_t[0], shots[0]) != old_t[0] && After(old_t[1], shots[1]) != old_t[1]
    ensures |m.files| > 0 && !Recoverable(Halfway(m, t, log, After(old_t[0], shots[0]), stamp), st, old_t, shots, false)
  {
    var F := Last(st);
    var now := Halfway(m, t, log, After(old_t[0], shots[0]), stamp);
    LastOpen(m, st, old_t);
    assert Newest(now, F) by { assert now.files[1].id == F; }
    if Recoverable(now, st, old_t, shots, false) {
      NewestTells(now, F, st, old_t, shots, false);
    }
  }

  lemma LastOpen(m: Media, st: Story, tables: seq<Table>)
    requires Rests(m, st, tables)
    ensures Last(st) in m.logs && ItemOf(m.logs[Last(st)].key, m.logs[Last(st)].key.cur).result != Prepared
    ensures |m.files| == |tables| > 0
    ensures forall i {:trigger m.files[i]} | 0 <= i < |m.files| ::
              m.files[i].id == Last(st) && m.files[i].table == tables[i]
  {
  }

  // ---------- a full key page ----------

  /** With nothing under way, a restart asks for no redo, whatever stands behind the key page, exactly if the page
      has room for one more item. */
  lemma VerdictIff(m: Media, st: Story, tables: seq<Table>)
    requires Rests(m, st, tables)
    ensures HasRoom(m) <==> forall behind: Item :: !VerdictOn(LogAt(m, Last(st)).key, behind).Redo?
  {
    var t := Last(st);
    assert Newest(m, t) by { assert m.files[0].id == t; }
    forall x | Newest(m, x) ensures x == t { RestsNewest(m, st, tables, x); }
    hide Rests;
    if HasRoom(m) {
      RestsNewest(m, st, tables, t);
    } else {
      assert VerdictOn(LogAt(m, t).key, Item(0, 0, 0, Prepared)).Redo?;
    }
  }

  /** With a table name of 28 characters or more a log file has less than 203 items; then the condition always holds. */
  lemma LongNames(m: Media, st: Story, old_t: seq<Table>, shots: seq<seq<LogPage>>, fair: bool)
    requires Recoverable(m, st, old_t, shots, fair) && forall t | t in m.logs :: m.logs[t].key.max < KEYROOM
    ensures HasRoom(m)
  {
    forall t | Newest(m, t) && t in m.logs
      ensures m.logs[t].key.cur < KEYROOM
    {
      NewestTells(m, t, st, old_t, shots, fair);
    }
  }

  /** The log file of 203 checkpoints without a changed page. */
  ghost function FullLog(): Log {
    Log(Key(2, 203, 203, 0, map j: nat | j < 203 :: FullItem(j)), map[0 := map j: nat | j < 203 :: FullSpan(j)], map[])
  }

  function FullItem(j: nat): Item { Item(2, 2, j + 1, Commit) }

  function FullSpan(j: nat): Span { Span(2, 2) }

  ghost function FullRecs(): seq<Rec> {
    seq(203, j requires 0 <= j < 203 => Rec(j + 1, Commit, [[]]))
  }

  lemma FullRec(j: nat)
    requires j < 203
    ensures RecOf(FullLog(), 1, j) == FullRecs()[j]
  {
    assert SpanOf(FullLog().info[0], j) == Span(2, 2);
    assert ShotOf(FullLog(), 0, j) == [];
    assert ShotsOf(FullLog(), 1, j) == [[]];
  }

  /** One table at rest after 203 checkpoints: its key page is full, and item 203, which a restart reads, lies
      behind it. */
  lemma FullPageMisread() returns (m: Media, st: Story, tables: seq<Table>)
    ensures Rests(m, st, tables) && !HasRoom(m)
    ensures VerdictOn(LogAt(m, Last(st)).key, Item(0, 0, 0, Prepared)) == Redo
    ensures VerdictOn(LogAt(m, Last(st)).key, Item(2, 0, 0, Null)) == Aborting
  {
    var t := Table([], map[]);
    tables, st := [t], Story([1], [0, 203], FullRecs(), [true]);
    m := Media([File(t, 1, 203)], map[1 := FullLog()]);
    FullChron(m.logs, st);
    assert ItemOf(FullLog().key, 203) == Item(0, 0, 0, Null);
    assert Idle(m, 1, 1);
    assert Dated(m.files, st.recs) by { assert st.recs[202].stamp == 203; }
    hide Chron, Dated, Idle;
    VerdictIff(m, st, tables);
    assert VerdictOn(LogAt(m, Last(st)).key, Item(0, 0, 0, Prepared)).Redo?;
  }

  lemma FullChron(logs: map<nat, Log>, st: Story)
    requires logs == map[1 := FullLog()] && st == Story([1], [0, 203], FullRecs(), [true])
    ensures Chron(logs, 1, st)
  {
    var recs := FullRecs();
    assert Formed(recs, 1) by {
      forall j | 0 <= j < 203
        ensures recs[j] == Rec(j + 1, Commit, [[]]) && ShotsFit(recs[j].shots, 1)
      {
        assert recs[j].shots == [[]];
      }
    }
    assert Tells(FullLog(), 1, recs, 0, 203) by {
      forall j: nat | j < 203 ensures recs[0 + j] == RecOf(FullLog(), 1, j) { FullRec(j); }
    }
    assert Below(FullLog(), 1) by {
      forall j: nat | j < 203 ensures SpanOf(FullLog().info[0], j).last <= 2 {}
    }
    hide Formed, Tells, Below;
  }
}
