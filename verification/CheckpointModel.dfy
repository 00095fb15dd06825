/** What stands on disk between two page writes of `GlobalLogger` in `znet/common/db.h`: table files,
    log files, and the states from which a restart finds either the old or the new checkpoint. */
module CheckpointModel {
  import opened Keys

  type Body = seq<byte>

  /** What a table says: its magic page and its other pages. */
  datatype Table = Table(magic: Body, pages: map<nat, Body>)

  /** A table file: the table and the two log fields of its magic page. */
  datatype File = File(table: Table, id: nat, check: nat)

  datatype Result = Null | Prepared | Commit | Abort

  datatype Item = Item(first: nat, last: nat, stamp: nat, result: Result)

  /** How many items page 0 of a log file holds: they start at byte 36 of 4096 and take 20 bytes each. */
  const KEYROOM := 203

  /** Page 0 of a log file; items that were never written are zero. */
  datatype Key = Key(last: nat, cur: nat, max: nat, chain: nat, items: map<nat, Item>)

  const EMPTY := Key(0, 0, 0, 0, map[])

  datatype Span = Span(first: nat, last: nat)

  /** A saved page; target 0 is the magic page. */
  datatype LogPage = LogPage(target: nat, body: Body)

  /** A log file: page 0, one page of spans for every table, and the saved pages. */
  datatype Log = Log(key: Key, info: map<nat, map<nat, Span>>, data: map<nat, LogPage>)

  function ItemOf(key: Key, i: nat): Item {
    if i in key.items then key.items[i] else Item(0, 0, 0, Null)
  }

  function SpanOf(info: map<nat, Span>, i: nat): Span {
    if i in info then info[i] else Span(0, 0)
  }

  // ---------- snapshots ----------

  /** The dirty pages of a table, the magic page last; nothing if no page was dirty. */
  ghost predicate ShotOK(s: seq<LogPage>) {
    s != [] ==> s[|s| - 1].target == 0 && forall k | 0 <= k < |s| - 1 :: s[k].target > 0
  }

  function Write(pages: map<nat, Body>, s: seq<LogPage>): map<nat, Body> {
    if s == [] then pages else Write(pages, s[..|s| - 1])[s[|s| - 1].target := s[|s| - 1].body]
  }

  /** A table after all pages of a snapshot were written to it. */
  function After(t: Table, s: seq<LogPage>): Table {
    if s == [] then t else Table(s[|s| - 1].body, Write(t.pages, s[..|s| - 1]))
  }

  ghost function Targets(s: seq<LogPage>): set<nat> {
    set k | 0 <= k < |s| :: s[k].target
  }

  /** Outside the pages of the snapshot a table is as it was. */
  ghost predicate Partly(t: Table, old_t: Table, s: seq<LogPage>) {
    if s == [] then t == old_t else t.pages - Targets(s[..|s| - 1]) == old_t.pages - Targets(s[..|s| - 1])
  }

  /** A page holds what was written to it last, a page that was not written what it held, and the magic page what stands
      last in the snapshot. */
  lemma {:induction false} WrittenLast(pages: map<nat, Body>, s: seq<LogPage>, i: nat)
    requires i < |s| && forall j | i < j < |s| :: s[j].target != s[i].target
    ensures s[i].target in Write(pages, s) && Write(pages, s)[s[i].target] == s[i].body
    decreases |s|
  {
    if i < |s| - 1 {
      assert s[..|s| - 1][i] == s[i];
      WrittenLast(pages, s[..|s| - 1], i);
    }
  }

  lemma AfterReads(t: Table, s: seq<LogPage>, i: nat, k: nat)
    requires ShotOK(s) && i < |s|
    ensures After(t, s).magic == s[|s| - 1].body
    ensures i < |s| - 1 && (forall j | i < j < |s| - 1 :: s[j].target != s[i].target) ==>
            s[i].target in After(t, s).pages && After(t, s).pages[s[i].target] == s[i].body
    ensures (forall j | 0 <= j < |s| - 1 :: s[j].target != k) ==>
            (k in After(t, s).pages <==> k in t.pages) && (k in t.pages ==> After(t, s).pages[k] == t.pages[k])
  {
    var front := s[..|s| - 1];
    if i < |s| - 1 && forall j | i < j < |s| - 1 :: s[j].target != s[i].target {
      WrittenLast(t.pages, front, i);
    }
    if forall j | 0 <= j < |s| - 1 :: s[j].target != k {
      assert k !in Targets(front);
      NotWritten(t.pages, front, k);
    }
  }

  /** What is written at one place does not depend on what stood there. */
  lemma {:induction false} WriteAt(p: map<nat, Body>, q: map<nat, Body>, s: seq<LogPage>, k: nat)
    requires k in Targets(s) || ((k in p <==> k in q) && (k in p ==> p[k] == q[k]))
    ensures (k in Write(p, s) <==> k in Write(q, s)) && (k in Write(p, s) ==> Write(p, s)[k] == Write(q, s)[k])
    decreases |s|
  {
    if s != [] && k != s[|s| - 1].target {
      if k in Targets(s) {
        var i :| 0 <= i < |s| && s[i].target == k;
        assert s[..|s| - 1][i].target == k;
      }
      WriteAt(p, q, s[..|s| - 1], k);
    }
  }

  lemma WriteAgain(p: map<nat, Body>, q: map<nat, Body>, s: seq<LogPage>)
    requires p - Targets(s) == q - Targets(s)
    ensures Write(p, s) == Write(q, s)
  {
    hide Write, Targets;
    var T := Targets(s);
    forall k: nat
      ensures (k in Write(p, s) <==> k in Write(q, s)) && (k in Write(p, s) ==> Write(p, s)[k] == Write(q, s)[k])
    {
      if k !in T {
        assert k in p <==> k in p - T;
        assert k in q <==> k in q - T;
      }
      WriteAt(p, q, s, k);
    }
  }

  /** Writing the whole snapshot over a partly written table gives what the old table becomes. */
  lemma Redone(t: Table, old_t: Table, s: seq<LogPage>)
    requires Partly(t, old_t, s)
    ensures After(t, s) == After(old_t, s)
  {
    if s != [] { WriteAgain(t.pages, old_t.pages, s[..|s| - 1]); }
  }

  // ---------- disk states ----------

  datatype Media = Media(files: seq<File>, logs: map<nat, Log>)

  function LogAt(m: Media, t: nat): Log {
    if t in m.logs then m.logs[t] else Log(EMPTY, map[], map[])
  }

  function WithFile(m: Media, i: int, f: File): Media
    requires 0 <= i < |m.files|
  {
    Media(m.files[i := f], m.logs)
  }

  function WithKey(m: Media, t: nat, key: Key): Media {
    Media(m.files, m.logs[t := LogAt(m, t).(key := key)])
  }

  function WithInfo(m: Media, t: nat, i: nat, info: map<nat, Span>): Media {
    Media(m.files, m.logs[t := LogAt(m, t).(info := LogAt(m, t).info[i := info])])
  }

  function WithData(m: Media, t: nat, k: nat, page: LogPage): Media {
    Media(m.files, m.logs[t := LogAt(m, t).(data := LogAt(m, t).data[k := page])])
  }


  /** Page 0 of a log file in use: no more than `max` items were written, none behind the current one, which has no
      time. */
  ghost predicate Fresh(key: Key) {
    && key.last > 0 && key.cur <= key.max <= KEYROOM && ItemOf(key, key.cur).stamp == 0
    && forall r | r in key.items :: r <= key.cur && r < key.max
  }

  /** Log file F can be loaded and has nothing to redo. */
  ghost predicate Idle(m: Media, F: nat, n: nat) {
    && F in m.logs && Fresh(m.logs[F].key) && ItemOf(m.logs[F].key, m.logs[F].key.cur).result != Prepared
    && (forall i: nat | i < n :: i in m.logs[F].info)
  }

  /** All tables hold `old` and belong to log file F, which has nothing to redo. */
  ghost predicate Quiet(m: Media, F: nat, old_t: seq<Table>) {
    && 0 < F && |m.files| == |old_t| > 0 && Idle(m, F, |old_t|)
    && (forall i | 0 <= i < |m.files| :: m.files[i].id == F && m.files[i].table == old_t[i])
  }

  /** The saved pages of one table in the current record. */
  ghost predicate Saved(log: Log, i: nat, s: seq<LogPage>) {
    && i in log.info && ShotOK(s)
    && var span := SpanOf(log.info[i], log.key.cur);
       span.first > 0 && span.last == span.first + |s| && Piece(log, span.first, |s|, s)
  }

  /** A saved snapshot below page `end`. */
  ghost predicate SavedBelow(log: Log, i: nat, s: seq<LogPage>, end: nat) {
    Saved(log, i, s) && SpanOf(log.info[i], log.key.cur).last <= end
  }

  ghost predicate PieceAt(log: Log, at: nat, s: seq<LogPage>, q: int) {
    0 <= q < |s| && at + q in log.data && log.data[at + q] == s[q]
  }

  /** The first k pages of a snapshot stand in the log file from page `at` on. */
  ghost predicate Piece(log: Log, at: nat, k: nat, s: seq<LogPage>) {
    k <= |s| && forall q {:trigger PieceAt(log, at, s, q)} | 0 <= q < k :: PieceAt(log, at, s, q)
  }

  lemma PieceMore(log: Log, at: nat, k: nat, s: seq<LogPage>)
    requires Piece(log, at, k, s) && k < |s|
    ensures Piece(log.(data := log.data[at + k := s[k]]), at, k + 1, s)
  {
    var n := log.(data := log.data[at + k := s[k]]);
    forall q | 0 <= q < k + 1
      ensures PieceAt(n, at, s, q)
    {
      assert q == k || PieceAt(log, at, s, q);
    }
  }

  /** The current record of a log file is prepared and holds these snapshots. */
  ghost predicate Describes(log: Log, shots: seq<seq<LogPage>>) {
    && Fresh(log.key) && ItemOf(log.key, log.key.cur).result == Prepared
    && (forall i: nat {:trigger Saved(log, i, shots[i])} | i < |shots| :: SavedBelow(log, i, shots[i], log.key.last))
  }

  /** Log file L holds the snapshots, and every table is at most partly changed. */
  ghost predicate Ready(m: Media, L: nat, old_t: seq<Table>, shots: seq<seq<LogPage>>) {
    && L in m.logs && Describes(m.logs[L], shots) && |m.files| == |old_t| == |shots| > 0
    && (forall i {:trigger m.files[i]} | 0 <= i < |m.files| ::
       0 < m.files[i].id <= L && Partly(m.files[i].table, old_t[i], shots[i]))
  }

  /** The same, and some table already names L: a restart will redo it. */
  ghost predicate Armed(m: Media, L: nat, old_t: seq<Table>, shots: seq<seq<LogPage>>) {
    Ready(m, L, old_t, shots) && exists i :: 0 <= i < |m.files| && m.files[i].id == L
  }

  function News(old_t: seq<Table>, shots: seq<seq<LogPage>>): seq<Table>
    requires |old_t| == |shots|
  {
    seq(|old_t|, i requires 0 <= i < |old_t| => After(old_t[i], shots[i]))
  }

  // ---------- single writes ----------

  /** Its own log file may be written as long as there is nothing to redo. */
  lemma QuietKey(m: Media, F: nat, old_t: seq<Table>, t: nat, key: Key)
    requires Quiet(m, F, old_t) && (t == F ==> Fresh(key) && ItemOf(key, key.cur).result != Prepared)
    ensures Quiet(WithKey(m, t, key), F, old_t)
  {
  }

  lemma QuietInfo(m: Media, F: nat, old_t: seq<Table>, t: nat, i: nat, info: map<nat, Span>)
    requires Quiet(m, F, old_t)
    ensures Quiet(WithInfo(m, t, i, info), F, old_t)
  {
  }

  lemma QuietData(m: Media, F: nat, old_t: seq<Table>, t: nat, k: nat, page: LogPage)
    requires Quiet(m, F, old_t)
    ensures Quiet(WithData(m, t, k, page), F, old_t)
  {
  }

  lemma SavedData(log: Log, i: nat, s: seq<LogPage>, end: nat, k: nat, page: LogPage)
    requires SavedBelow(log, i, s, end) && end <= k
    ensures SavedBelow(log.(data := log.data[k := page]), i, s, end)
  {
    var at := SpanOf(log.info[i], log.key.cur).first;
    var n := log.(data := log.data[k := page]);
    forall q | 0 <= q < |s|
      ensures PieceAt(n, at, s, q)
    {
      assert PieceAt(log, at, s, q);
    }
  }

  /** What is saved does not depend on other tables' spans, nor on page 0 but for the record number. */
  lemma SavedFrame(log: Log, i: nat, s: seq<LogPage>, n: Log)
    requires Saved(log, i, s) && n.data == log.data && n.key.cur == log.key.cur && i in n.info
             && n.info[i] == log.info[i]
    ensures Saved(n, i, s)
  {
    var at := SpanOf(log.info[i], log.key.cur).first;
    forall q | 0 <= q < |s|
      ensures PieceAt(n, at, s, q)
    {
      assert PieceAt(log, at, s, q);
    }
  }

  /** A table that is partly changed again is still partly the old one. */
  lemma PartlyAgain(t: Table, now: Table, old_t: Table, s: seq<LogPage>)
    requires Partly(t, old_t, s) && Partly(now, t, s)
    ensures Partly(now, old_t, s)
  {
  }

  /** Some pages of the snapshot but the magic one are written. */
  lemma PartlyWritten(t: Table, s: seq<LogPage>, k: nat, now: Table)
    requires k < |s| && now.pages == Write(t.pages, s[..k])
    ensures Partly(now, t, s)
  {
    hide Write;
    var front := s[..|s| - 1];
    assert s[..k] == front[..k];
    forall x: nat | x !in Targets(front)
      ensures (x in now.pages <==> x in t.pages) && (x in t.pages ==> now.pages[x] == t.pages[x])
    {
      TargetsPrefix(front, k);
      NotWritten(t.pages, s[..k], x);
    }
  }

  lemma TargetsPrefix(s: seq<LogPage>, k: nat)
    requires k <= |s|
    ensures Targets(s[..k]) <= Targets(s)
  {
    forall x | x in Targets(s[..k])
      ensures x in Targets(s)
    {
      var i :| 0 <= i < k && s[..k][i].target == x;
      assert s[i].target == x;
    }
  }

  /** Table i is written with the id of L; what it holds is partly changed. */
  lemma TableStep(m: Media, L: nat, old_t: seq<Table>, shots: seq<seq<LogPage>>, i: nat, f: File)
    requires Ready(m, L, old_t, shots) && i < |m.files| && 0 < L && f.id == L
             && Partly(f.table, m.files[i].table, shots[i])
    ensures Armed(WithFile(m, i, f), L, old_t, shots)
  {
    assert Partly(m.files[i].table, old_t[i], shots[i]) by { assert 0 < m.files[i].id; }
    PartlyAgain(m.files[i].table, f.table, old_t[i], shots[i]);
    assert WithFile(m, i, f).files[i].id == L;
  }

  /** The write that turns a record into a prepared one. */
  lemma RecordPrepared(m: Media, F: nat, L: nat, old_t: seq<Table>, shots: seq<seq<LogPage>>, key: Key, n: Media,
      end: nat)
    requires Quiet(m, F, old_t) && F <= L && L in m.logs && |old_t| == |shots| && n == WithKey(m, L, key)
    requires Fresh(key) && ItemOf(key, key.cur).result == Prepared && key.cur == m.logs[L].key.cur && key.last == end
    requires forall j: nat {:trigger SavedBelow(m.logs[L], j, shots[j], end)} | j < |shots| ::
             SavedBelow(m.logs[L], j, shots[j], end)
    ensures Ready(n, L, old_t, shots) && (if F == L then Armed(n, L, old_t, shots) else Quiet(n, F, old_t))
    ensures forall i {:trigger n.files[i]} | 0 <= i < |n.files| :: n.files[i].table == old_t[i]
  {
    forall j: nat | j < |shots|
      ensures SavedBelow(n.logs[L], j, shots[j], end) && Saved(n.logs[L], j, shots[j])
    {
      assert SavedBelow(m.logs[L], j, shots[j], end);
      SavedFrame(m.logs[L], j, shots[j], n.logs[L]);
    }
    hide Saved;
    assert Ready(n, L, old_t, shots);
    if F == L { assert n.files[0].id == L; }
  }

  /** Page k of a snapshot is written to a table that holds the pages in front of it. */
  lemma OneMorePage(p: map<nat, Body>, s: seq<LogPage>, k: nat)
    requires k < |s|
    ensures Write(p, s[..k + 1]) == Write(p, s[..k])[s[k].target := s[k].body]
  {
    assert s[..k + 1][..k] == s[..k];
  }

  lemma NothingWritten(p: map<nat, Body>, s: seq<LogPage>)
    ensures Write(p, s[..0]) == p
  {
  }

  lemma {:induction false} NotWritten(p: map<nat, Body>, s: seq<LogPage>, k: nat)
    requires k !in Targets(s)
    ensures (k in Write(p, s) <==> k in p) && (k in p ==> Write(p, s)[k] == p[k])
    decreases |s|
  {
    if s != [] {
      assert s[|s| - 1].target in Targets(s);
      forall x | x in Targets(s[..|s| - 1])
        ensures x in Targets(s)
      {
        var i :| 0 <= i < |s| - 1 && s[..|s| - 1][i].target == x;
        assert s[i].target == x;
      }
      NotWritten(p, s[..|s| - 1], k);
    }
  }

  /** The span of a table in a prepared record. */
  lemma SpanIs(m: Media, L: nat, old_t: seq<Table>, shots: seq<seq<LogPage>>, i: nat)
    requires Ready(m, L, old_t, shots) && i < |shots|
    ensures i in m.logs[L].info && ShotOK(shots[i])
    ensures var span := SpanOf(m.logs[L].info[i], m.logs[L].key.cur);
            span.first > 0 && span.last == span.first + |shots[i]| && Piece(m.logs[L], span.first, |shots[i]|, shots[i])
    ensures SavedBelow(m.logs[L], i, shots[i], m.logs[L].key.last)
    ensures i < |m.files| && |m.files| == |old_t| && m.files[i].id > 0 && Partly(m.files[i].table, old_t[i], shots[i])
  {
    assert Saved(m.logs[L], i, shots[i]);
    assert 0 < m.files[i].id;
  }

  /** The write that closes the record: all tables are new and there is nothing left to redo. */
  lemma RecordClosed(m: Media, L: nat, old_t: seq<Table>, shots: seq<seq<LogPage>>, key: Key)
    requires Ready(m, L, old_t, shots) && L > 0 && Fresh(key) && ItemOf(key, key.cur).result != Prepared
    requires forall i {:trigger m.files[i]} | 0 <= i < |m.files| ::
             m.files[i].id == L && m.files[i].table == After(old_t[i], shots[i])
    ensures Quiet(WithKey(m, L, key), L, News(old_t, shots))
  {
    forall i: nat | i < |shots| ensures i in m.logs[L].info { assert Saved(m.logs[L], i, shots[i]); }
  }

  ghost predicate Newest(m: Media, t: nat) {
    && (forall i {:trigger m.files[i]} | 0 <= i < |m.files| :: m.files[i].id <= t)
    && (exists i :: 0 <= i < |m.files| && m.files[i].id == t)
  }
}
