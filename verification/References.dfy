/** Hard and weak references of `znet/common/reference.h`: handles, control blocks and threads that are each inside
    one operation, moving by single atomic steps in any order. */
module References {

  type Handle = int
  type Block = int
  type Thread = int

  datatype Kind = Hard | Weak

  /** A handle: its kind and its ref field, 0 for NULL. */
  datatype Cell = Cell(kind: Kind, ref: Block)

  /** What an operation does once the old reference is released. */
  datatype Take = Nothing | Copy(kind: Kind, to: Handle, from: Handle)

  /** The step a thread takes next. */
  datatype Work =
    | Idle
    | Release(kind: Kind, b: Block, then_: Take)    // at --hard_count or --weak_count
    | Destroy(b: Block, then_: Take)                // at destroy()
    | Delete(b: Block, then_: Take)                 // at delete this
    | Acquire(take: Take)                           // at the copy of ref and its counting

  /** Who has a share of a count; Common is the one weak share of all hard ones together. */
  datatype Owner = ByHandle(h: Handle) | ByThread(t: Thread) | Common

  datatype Life = Alive | Ending(t: Thread) | Over

  type Cells = map<Handle, Cell>
  type Works = map<Thread, Work>
  type Busy = map<Handle, Thread>
  type Shares = map<Block, set<Owner>>

  // ---------- shares ----------

  predicate Releases(w: Work, kind: Kind, b: Block) { w.Release? && w.kind == kind && w.b == b }

  /** Handle h, which nobody is writing, refers to b. */
  ghost predicate Refers(cells: Cells, busy: Busy, h: Handle, kind: Kind, b: Block) {
    h in cells && h !in busy && cells[h] == Cell(kind, b)
  }

  /** Besides Common, the owners are the handles that refer to b and the threads about to release it. */
  ghost predicate Owned(kind: Kind, cells: Cells, busy: Busy, work: Works, b: Block, owners: set<Owner>) {
    && (forall h {:trigger Refers(cells, busy, h, kind, b)} {:trigger ByHandle(h) in owners} ::
       ByHandle(h) in owners <==> Refers(cells, busy, h, kind, b))
    && forall t {:trigger ByThread(t) in owners} {:trigger work[t]} ::
       ByThread(t) in owners <==> t in work && Releases(work[t], kind, b)
  }

  ghost predicate Owners(kind: Kind, cells: Cells, busy: Busy, work: Works, shares: Shares) {
    forall b {:trigger shares[b]} | b in shares :: Owned(kind, cells, busy, work, b, shares[b])
  }

  /** A thread that turns to something else than releasing keeps the owners. */
  lemma OwnersMove(kind: Kind, cells: Cells, busy: Busy, work: Works, shares: Shares, t: Thread, w: Work)
    requires Owners(kind, cells, busy, work, shares) && t in work && forall b ::
             Releases(work[t], kind, b) == Releases(w, kind, b)
    ensures Owners(kind, cells, busy, work[t := w], shares)
  {
    var now := work[t := w];
    forall b | b in shares
      ensures Owned(kind, cells, busy, now, b, shares[b])
    {
      assert Owned(kind, cells, busy, work, b, shares[b]);
      assert forall u :: u in now <==> u in work;
    }
  }

  /** Nothing but handle h differs. */
  ghost predicate Else(cells: Cells, busy: Busy, nc: Cells, nb: Busy, h: Handle) {
    forall g, kind, b {:trigger Refers(nc, nb, g, kind, b)} | g != h ::
        Refers(nc, nb, g, kind, b) == Refers(cells, busy, g, kind, b)
  }

  /** Handle h refers to nothing, or a thread is writing it. */
  predicate Aside(cells: Cells, busy: Busy, h: Handle) {
    h !in cells || h in busy || cells[h].ref == 0
  }

  /** A handle comes to refer to b. */
  lemma OwnersAdd(kind: Kind, cells: Cells, busy: Busy, work: Works, shares: Shares, nc: Cells, nb: Busy, h: Handle,
      b: Block)
    requires Owners(kind, cells, busy, work, shares) && 0 !in shares && b in shares && Else(cells, busy, nc, nb, h)
    requires Aside(cells, busy, h) && Refers(nc, nb, h, kind, b)
    ensures Owners(kind, nc, nb, work, shares[b := shares[b] + {ByHandle(h)}]) && ByHandle(h) !in shares[b]
  {
    var now := shares[b := shares[b] + {ByHandle(h)}];
    assert Owned(kind, cells, busy, work, b, shares[b]);
    forall c | c in now
      ensures Owned(kind, nc, nb, work, c, now[c])
    {
      assert Owned(kind, cells, busy, work, c, shares[c]);
      assert !Refers(cells, busy, h, kind, c) && (Refers(nc, nb, h, kind, c) <==> c == b);
    }
  }

  /** A change of a handle that does not refer to a block in this way, before or after. */
  lemma OwnersAside(kind: Kind, cells: Cells, busy: Busy, work: Works, shares: Shares, nc: Cells, nb: Busy, h: Handle)
    requires Owners(kind, cells, busy, work, shares) && 0 !in shares && Else(cells, busy, nc, nb, h)
    requires Aside(cells, busy, h) || cells[h].kind != kind
    requires Aside(nc, nb, h) || nc[h].kind != kind
    ensures Owners(kind, nc, nb, work, shares)
  {
    forall b | b in shares
      ensures Owned(kind, nc, nb, work, b, shares[b])
    {
      assert Owned(kind, cells, busy, work, b, shares[b]);
      assert !Refers(cells, busy, h, kind, b) && !Refers(nc, nb, h, kind, b);
    }
  }

  /** The share of a handle passes to the thread that is going to release it. */
  lemma OwnersPass(kind: Kind, cells: Cells, busy: Busy, work: Works, shares: Shares, nc: Cells, nb: Busy, h: Handle,
      b: Block, t: Thread, w: Work)
    requires Owners(kind, cells, busy, work, shares) && b in shares && t in work && !work[t].Release?
             && Releases(w, kind, b)
    requires Else(cells, busy, nc, nb, h) && Refers(cells, busy, h, kind, b) && (h !in nc || h in nb)
    ensures Owners(kind, nc, nb, work[t := w], shares[b := shares[b] - {ByHandle(h)} + {ByThread(t)}])
    ensures ByHandle(h) in shares[b] && ByThread(t) !in shares[b]
  {
    var now, nw := shares[b := shares[b] - {ByHandle(h)} + {ByThread(t)}], work[t := w];
    assert Owned(kind, cells, busy, work, b, shares[b]);
    forall c | c in now
      ensures Owned(kind, nc, nb, nw, c, now[c])
    {
      assert Owned(kind, cells, busy, work, c, shares[c]);
      assert !Refers(nc, nb, h, kind, c) && (Refers(cells, busy, h, kind, c) <==> c == b);
      forall u ensures ByThread(u) in now[c] <==> u in nw && Releases(nw[u], kind, c) {}
    }
  }

  /** A thread gives up its share. */
  lemma OwnersDrop(kind: Kind, cells: Cells, busy: Busy, work: Works, shares: Shares, t: Thread, w: Work)
    requires Owners(kind, cells, busy, work, shares) && t in work && work[t].Release? && work[t].kind == kind
             && work[t].b in shares && !w.Release?
    ensures var b := work[t].b;
            Owners(kind, cells, busy, work[t := w], shares[b := shares[b] - {ByThread(t)}])
            && ByThread(t) in shares[b]
  {
    var b := work[t].b;
    var now, nw := shares[b := shares[b] - {ByThread(t)}], work[t := w];
    assert Owned(kind, cells, busy, work, b, shares[b]);
    forall c | c in now
      ensures Owned(kind, cells, busy, nw, c, now[c])
    {
      assert Owned(kind, cells, busy, work, c, shares[c]);
      forall u ensures ByThread(u) in now[c] <==> u in nw && Releases(nw[u], kind, c) {}
    }
  }

  /** The common share passes to the thread that is going to release it. */
  lemma OwnersCommon(cells: Cells, busy: Busy, work: Works, shares: Shares, t: Thread, w: Work, b: Block)
    requires Owners(Weak, cells, busy, work, shares) && t in work && !work[t].Release? && b in shares
             && Releases(w, Weak, b)
    ensures Owners(Weak, cells, busy, work[t := w], shares[b := shares[b] - {Common} + {ByThread(t)}])
            && ByThread(t) !in shares[b]
  {
    var now, nw := shares[b := shares[b] - {Common} + {ByThread(t)}], work[t := w];
    assert Owned(Weak, cells, busy, work, b, shares[b]);
    forall c | c in now
      ensures Owned(Weak, cells, busy, nw, c, now[c])
    {
      assert Owned(Weak, cells, busy, work, c, shares[c]);
      forall u ensures ByThread(u) in now[c] <==> u in nw && Releases(nw[u], Weak, c) {}
    }
  }

  /** The hard shares have the common weak one until the object is destroyed. */
  ghost predicate Commons(hs: Shares, ws: Shares, obj: map<Block, Life>) {
    && hs.Keys == ws.Keys == obj.Keys
    && forall b {:trigger obj[b]} | b in obj :: Common !in hs[b] && (Common in ws[b] <==> obj[b] != Over)
  }

  /** The counts are the numbers of shares. */
  ghost predicate Counts(count: map<Block, int>, shares: Shares) {
    count.Keys == shares.Keys && forall b {:trigger count[b]} {:trigger shares[b]} | b in count ::
        count[b] == |shares[b]|
  }

  ghost predicate Keyed(hard: map<Block, int>, weak: map<Block, int>, hs: Shares, ws: Shares, blocks: set<Block>) {
    hard.Keys == blocks && weak.Keys == blocks && hs.Keys == blocks && ws.Keys == blocks
  }

  lemma KeyedIn(hard: map<Block, int>, weak: map<Block, int>, hs: Shares, ws: Shares, blocks: set<Block>, b: Block)
    requires Keyed(hard, weak, hs, ws, blocks)
    ensures (b in blocks <==> b in hard) && (b in blocks <==> b in weak) && (b in blocks <==> b in hs)
            && (b in blocks <==> b in ws)
    ensures 0 !in blocks ==> 0 !in hs && 0 !in ws
    ensures hs.Keys == blocks
  {
  }

  lemma KeyedKept(hard: map<Block, int>, weak: map<Block, int>, hs: Shares, ws: Shares, blocks: set<Block>, b: Block,
      n: int, s: set<Owner>)
    requires Keyed(hard, weak, hs, ws, blocks) && b in blocks
    ensures Keyed(hard[b := n], weak, hs, ws, blocks) && Keyed(hard, weak[b := n], hs, ws, blocks)
    ensures Keyed(hard, weak, hs[b := s], ws, blocks) && Keyed(hard, weak, hs, ws[b := s], blocks)
  {
    assert hard[b := n].Keys == blocks && weak[b := n].Keys == blocks && hs[b := s].Keys == blocks
        && ws[b := s].Keys == blocks;
  }

  lemma KeyedNew(hard: map<Block, int>, weak: map<Block, int>, hs: Shares, ws: Shares, blocks: set<Block>, b: Block,
      h: Handle)
    requires Keyed(hard, weak, hs, ws, blocks)
    ensures Keyed(hard[b := 1], weak[b := 1], hs[b := {ByHandle(h)}], ws[b := {Common}], blocks + {b})
  {
  }

  lemma CommonsNew(hs: Shares, ws: Shares, obj: map<Block, Life>, b: Block, h: Handle)
    requires Commons(hs, ws, obj) && b !in hs
    ensures Commons(hs[b := {ByHandle(h)}], ws[b := {Common}], obj[b := Alive])
  {
  }

  /** Shares of handles and threads come and go. */
  lemma CommonsKept(hs: Shares, ws: Shares, obj: map<Block, Life>, b: Block, now: set<Owner>)
    requires Commons(hs, ws, obj) && b in hs
    ensures Common !in now ==> Commons(hs[b := now], ws, obj)
    ensures (Common in now <==> Common in ws[b]) ==> Commons(hs, ws[b := now], obj)
  {
  }

  lemma CommonsLife(hs: Shares, ws: Shares, obj: map<Block, Life>, b: Block, t: Thread)
    requires Commons(hs, ws, obj) && b in hs && obj[b] != Over
    ensures Commons(hs, ws, obj[b := Ending(t)]) && Common in ws[b]
    ensures Commons(hs, ws[b := ws[b] - {Common} + {ByThread(t)}], obj[b := Over])
  {
  }

  // ---------- the ends of object and control block ----------

  predicate AtEnd(w: Work, what: Kind) {
    if what == Hard then w.Destroy? else w.Delete?
  }

  predicate Ends(w: Work, b: Block, what: Kind) {
    AtEnd(w, what) && w.b == b
  }

  /** The end comes once the count is 0, and just one thread brings it. */
  ghost predicate Lives(count: map<Block, int>, life: map<Block, Life>, done: map<Block, int>, work: Works,
      what: Kind)
  {
    && count.Keys == life.Keys == done.Keys
    && (forall b {:trigger life[b]} | b in life ::
       count[b] >= 0 && (count[b] > 0 <==> life[b] == Alive) && done[b] == if life[b] == Over then 1 else 0)
    && (forall t {:trigger work[t]} | t in work && AtEnd(work[t], what) ::
       work[t].b in life && life[work[t].b] == Ending(t))
    && forall b {:trigger life[b]} | b in life && life[b].Ending? :: life[b].t in work && Ends(work[life[b].t], b, what)
  }

  lemma LivesMove(count: map<Block, int>, life: map<Block, Life>, done: map<Block, int>, work: Works, what: Kind,
      t: Thread, w: Work)
    requires Lives(count, life, done, work, what) && t in work && !AtEnd(work[t], what) && !AtEnd(w, what)
    ensures Lives(count, life, done, work[t := w], what)
  {
  }

  lemma LivesCount(count: map<Block, int>, life: map<Block, Life>, done: map<Block, int>, work: Works, what: Kind,
      b: Block, n: int)
    requires Lives(count, life, done, work, what) && b in count && n >= 0 && (n > 0 <==> count[b] > 0)
    ensures Lives(count[b := n], life, done, work, what)
  {
  }

  lemma LivesBegin(count: map<Block, int>, life: map<Block, Life>, done: map<Block, int>, work: Works, what: Kind,
      t: Thread, w: Work, b: Block)
    requires Lives(count, life, done, work, what) && t in work && !AtEnd(work[t], what) && b in count && count[b] > 0
             && Ends(w, b, what)
    ensures Lives(count[b := 0], life[b := Ending(t)], done, work[t := w], what) && done[b] == 0
  {
  }

  lemma LivesDone(count: map<Block, int>, life: map<Block, Life>, done: map<Block, int>, work: Works, what: Kind,
      t: Thread, w: Work)
    requires Lives(count, life, done, work, what) && t in work && AtEnd(work[t], what) && !AtEnd(w, what)
    ensures var b := work[t].b;
            b in life && b in done && b in count && done[b] == 0 && count[b] == 0
            && Lives(count, life[b := Over], done[b := 1], work[t := w], what)
  {
  }

  lemma LivesNew(count: map<Block, int>, life: map<Block, Life>, done: map<Block, int>, work: Works, what: Kind,
      b: Block)
    requires Lives(count, life, done, work, what) && b !in count
    ensures Lives(count[b := 1], life[b := Alive], done[b := 0], work, what)
  {
  }

  // ---------- what the threads use ----------

  function TakeOf(w: Work): Take {
    match w
    case Idle => Nothing
    case Release(_, _, k) => k
    case Destroy(_, k) => k
    case Delete(_, k) => k
    case Acquire(k) => k
  }

  /** Where the thread goes on after a release. */
  function Then(k: Take): Work {
    if k == Nothing then Idle else Acquire(k)
  }

  /** What is next for a thread that gives up the reference c and then goes on to k. */
  function Giving(c: Cell, k: Take): Work {
    if c.ref == 0 then Then(k) else Release(c.kind, c.ref, k)
  }

  /** The handle written is the thread's own, and the handle read is left alone. */
  ghost predicate TakeOK(cells: Cells, busy: Busy, t: Thread, k: Take) {
    k.Copy? ==>
      && k.to in cells && cells[k.to].kind == k.kind && k.to in busy && busy[k.to] == t
      && k.from in cells && k.from !in busy
  }

  ghost predicate Takes(cells: Cells, busy: Busy, work: Works) {
    && (forall t {:trigger work[t]} | t in work ::
       TakeOK(cells, busy, t, TakeOf(work[t])) && (work[t].Acquire? ==> work[t].take.Copy?))
    && forall h {:trigger busy[h]} | h in busy ::
       busy[h] in work && TakeOf(work[busy[h]]).Copy? && TakeOf(work[busy[h]]).to == h
  }

  /** Every reference is to a control block. */
  ghost predicate Known(cells: Cells, work: Works, blocks: set<Block>) {
    && 0 !in blocks
    && (forall t {:trigger work[t]} | t in work && !work[t].Idle? && !work[t].Acquire? :: work[t].b in blocks)
    && forall h {:trigger cells[h]} | h in cells :: cells[h].ref == 0 || cells[h].ref in blocks
  }

  lemma KnownWork(cells: Cells, work: Works, blocks: set<Block>, t: Thread, w: Work)
    requires Known(cells, work, blocks) && t in work && (w.Idle? || w.Acquire? || w.b in blocks)
    ensures Known(cells, work[t := w], blocks)
  {
  }

  lemma KnownCell(cells: Cells, work: Works, blocks: set<Block>, h: Handle, c: Cell)
    requires Known(cells, work, blocks) && (c.ref == 0 || c.ref in blocks)
    ensures Known(cells[h := c], work, blocks) && Known(cells - {h}, work, blocks)
  {
  }

  lemma KnownBlock(cells: Cells, work: Works, blocks: set<Block>, b: Block)
    requires Known(cells, work, blocks) && b != 0
    ensures Known(cells, work, blocks + {b})
  {
  }

  /** No thread reads the handle. */
  predicate Unread(work: Works, h: Handle) {
    forall t {:trigger work[t]} | t in work && TakeOf(work[t]).Copy? :: TakeOf(work[t]).from != h
  }

  lemma TakesGoOn(cells: Cells, busy: Busy, work: Works, t: Thread, w: Work)
    requires Takes(cells, busy, work) && t in work && TakeOf(w) == TakeOf(work[t]) && (w.Acquire? ==> w.take.Copy?)
    ensures Takes(cells, busy, work[t := w])
  {
  }

  lemma TakesStart(cells: Cells, busy: Busy, work: Works, t: Thread, w: Work, nc: Cells)
    requires Takes(cells, busy, work) && t in work && work[t].Idle? && TakeOf(w).Copy?
    requires var k := TakeOf(w);
             Unread(work, k.to) && k.to !in busy && k.from in nc && k.from !in busy && k.from != k.to
    requires var k := TakeOf(w);
             k.to in nc && nc[k.to].kind == k.kind && forall h | h in cells && h != k.to ::
             h in nc && nc[h] == cells[h]
    ensures Takes(nc, busy[TakeOf(w).to := t], work[t := w])
  {
  }

  lemma TakesEnd(cells: Cells, busy: Busy, work: Works, t: Thread, c: Cell)
    requires Takes(cells, busy, work) && t in work && work[t].Acquire? && c.kind == work[t].take.kind
    ensures var h := work[t].take.to; Takes(cells[h := c], busy - {h}, work[t := Idle])
  {
    var h := work[t].take.to;
    assert TakeOf(work[t]) == work[t].take;
    var nb, nw := busy - {h}, work[t := Idle];
    assert busy[h] == t;
    forall g | g in nb
      ensures nb[g] in nw && TakeOf(nw[nb[g]]).Copy? && TakeOf(nw[nb[g]]).to == g
    {
      assert busy[g] in work;
    }
  }

  lemma TakesDrop(cells: Cells, busy: Busy, work: Works, t: Thread, w: Work, h: Handle)
    requires Takes(cells, busy, work) && t in work && work[t].Idle? && h in cells && h !in busy && Unread(work, h)
             && TakeOf(w) == Nothing && !w.Acquire?
    ensures Takes(cells - {h}, busy, work[t := w])
  {
  }

  /** A new control block with one handle, and nobody else that refers to it. */
  lemma OwnersNew(cells: Cells, busy: Busy, work: Works, hs: Shares, ws: Shares, h: Handle, b: Block)
    requires Owners(Hard, cells, busy, work, hs) && Owners(Weak, cells, busy, work, ws) && Known(cells, work, hs.Keys)
    requires hs.Keys == ws.Keys && b !in hs && b != 0 && h !in cells && h !in busy
    ensures Owners(Hard, cells[h := Cell(Hard, b)], busy, work, hs[b := {ByHandle(h)}])
    ensures Owners(Weak, cells[h := Cell(Hard, b)], busy, work, ws[b := {Common}])
  {
    var nc, nh, nw := cells[h := Cell(Hard, b)], hs[b := {ByHandle(h)}], ws[b := {Common}];
    forall c | c in nh
      ensures Owned(Hard, nc, busy, work, c, nh[c])
    {
      if c != b { assert Owned(Hard, cells, busy, work, c, hs[c]); }
    }
    forall c | c in nw
      ensures Owned(Weak, nc, busy, work, c, nw[c])
    {
      if c != b { assert Owned(Weak, cells, busy, work, c, ws[c]); }
    }
  }

  lemma TakesCreate(cells: Cells, busy: Busy, work: Works, h: Handle, c: Cell)
    requires Takes(cells, busy, work) && h !in cells
    ensures Takes(cells[h := c], busy, work)
  {
  }

  // ---------- counting ----------

  lemma CountsMore(count: map<Block, int>, shares: Shares, b: Block, o: Owner)
    requires Counts(count, shares) && b in shares && o !in shares[b]
    ensures b in count && Counts(count[b := count[b] + 1], shares[b := shares[b] + {o}])
  {
  }

  lemma CountsLess(count: map<Block, int>, shares: Shares, b: Block, o: Owner)
    requires Counts(count, shares) && b in shares && o in shares[b]
    ensures b in count && count[b] > 0 && Counts(count[b := count[b] - 1], shares[b := shares[b] - {o}])
  {
    assert shares[b] == (shares[b] - {o}) + {o};
  }

  lemma CountsPass(count: map<Block, int>, shares: Shares, b: Block, o: Owner, p: Owner)
    requires Counts(count, shares) && b in shares && o in shares[b] && p !in shares[b]
    ensures Counts(count, shares[b := shares[b] - {o} + {p}])
  {
    assert |shares[b] - {o}| == |shares[b]| - 1;
  }

  lemma CountsNew(count: map<Block, int>, shares: Shares, b: Block, o: Owner)
    requires Counts(count, shares) && b !in count
    ensures Counts(count[b := 1], shares[b := {o}])
  {
  }

  // ---------- the steps ----------

  ghost predicate Shared(cells: Cells, busy: Busy, work: Works, hard: map<Block, int>, weak: map<Block, int>,
      hs: Shares, ws: Shares, obj: map<Block, Life>, blocks: set<Block>)
  {
    && Owners(Hard, cells, busy, work, hs) && Owners(Weak, cells, busy, work, ws) && Commons(hs, ws, obj)
    && Counts(hard, hs) && Counts(weak, ws) && Keyed(hard, weak, hs, ws, blocks)
  }

  ghost predicate Ordered(work: Works, hard: map<Block, int>, weak: map<Block, int>, obj: map<Block, Life>,
      blk: map<Block, Life>, destroyed: map<Block, int>, deleted: map<Block, int>)
  {
    Lives(hard, obj, destroyed, work, Hard) && Lives(weak, blk, deleted, work, Weak)
  }

  ghost predicate Uses(cells: Cells, busy: Busy, work: Works, blocks: set<Block>) {
    Takes(cells, busy, work) && Known(cells, work, blocks)
  }

  lemma SharedCreate(cells: Cells, busy: Busy, work: Works, hard: map<Block, int>, weak: map<Block, int>, hs: Shares,
      ws: Shares, obj: map<Block, Life>, blocks: set<Block>, h: Handle, b: Block)
    requires Shared(cells, busy, work, hard, weak, hs, ws, obj, blocks) && Known(cells, work, blocks) && h !in cells
             && h !in busy
    requires b !in blocks && b != 0
    ensures Shared(cells[h := Cell(Hard, b)], busy, work, hard[b := 1], weak[b := 1], hs[b := {ByHandle(h)}],
                   ws[b := {Common}], obj[b := Alive], blocks + {b})
  {
    hide Counts, Owners, Commons, Known, Keyed;
    KeyedIn(hard, weak, hs, ws, blocks, b);
    KeyedNew(hard, weak, hs, ws, blocks, b, h);
    OwnersNew(cells, busy, work, hs, ws, h, b);
    CommonsNew(hs, ws, obj, b, h);
    CountsNew(hard, hs, b, ByHandle(h));
    CountsNew(weak, ws, b, Common);
  }

  /** A handle that refers to nothing changes, and the thread at it is not releasing. */
  lemma SharedAside(cells: Cells, busy: Busy, work: Works, hard: map<Block, int>, weak: map<Block, int>, hs: Shares,
      ws: Shares, obj: map<Block, Life>, blocks: set<Block>, nc: Cells, nb: Busy, h: Handle, t: Thread, w: Work)
    requires Shared(cells, busy, work, hard, weak, hs, ws, obj, blocks) && 0 !in blocks && t in work
             && !work[t].Release? && !w.Release?
    requires Else(cells, busy, nc, nb, h) && Aside(cells, busy, h) && Aside(nc, nb, h)
    ensures Shared(nc, nb, work[t := w], hard, weak, hs, ws, obj, blocks)
  {
    hide Counts, Owners, Commons, Keyed, Else, Aside;
    KeyedIn(hard, weak, hs, ws, blocks, 0);
    OwnersAside(Hard, cells, busy, work, hs, nc, nb, h);
    OwnersAside(Weak, cells, busy, work, ws, nc, nb, h);
    Turns(nc, nb, work, hs, ws, t, w);
  }

  /** The share of a handle passes to the thread that is going to release it. */
  lemma SharedPassHard(cells: Cells, busy: Busy, work: Works, hard: map<Block, int>, weak: map<Block, int>,
      hs: Shares, ws: Shares, obj: map<Block, Life>, blocks: set<Block>, nc: Cells, nb: Busy, h: Handle, t: Thread,
      w: Work)
    requires Shared(cells, busy, work, hard, weak, hs, ws, obj, blocks) && 0 !in blocks && t in work
             && !work[t].Release?
    requires h in cells && h !in busy && cells[h].kind == Hard && cells[h].ref in blocks
             && Else(cells, busy, nc, nb, h) && (h !in nc || h in nb)
    requires Releases(w, Hard, cells[h].ref)
    ensures var b := cells[h].ref;
            && b in hs
            && Shared(nc, nb, work[t := w], hard, weak, hs[b := hs[b] - {ByHandle(h)} + {ByThread(t)}], ws, obj, blocks)
  {
    hide Counts, Owners, Commons, Keyed, Else;
    var b := cells[h].ref;
    assert Refers(cells, busy, h, Hard, b);
    KeyedIn(hard, weak, hs, ws, blocks, b);
    CommonsKeys(hs, ws, obj, b);
    OwnersPass(Hard, cells, busy, work, hs, nc, nb, h, b, t, w);
    OwnersAside(Weak, cells, busy, work, ws, nc, nb, h);
    OwnersMove(Weak, nc, nb, work, ws, t, w);
    CountsPass(hard, hs, b, ByHandle(h), ByThread(t));
    CommonsKept(hs, ws, obj, b, hs[b] - {ByHandle(h)} + {ByThread(t)});
    KeyedKept(hard, weak, hs, ws, blocks, b, 0, hs[b] - {ByHandle(h)} + {ByThread(t)});
  }

  lemma SharedPassWeak(cells: Cells, busy: Busy, work: Works, hard: map<Block, int>, weak: map<Block, int>,
      hs: Shares, ws: Shares, obj: map<Block, Life>, blocks: set<Block>, nc: Cells, nb: Busy, h: Handle, t: Thread,
      w: Work)
    requires Shared(cells, busy, work, hard, weak, hs, ws, obj, blocks) && 0 !in blocks && t in work
             && !work[t].Release?
    requires h in cells && h !in busy && cells[h].kind == Weak && cells[h].ref in blocks
             && Else(cells, busy, nc, nb, h) && (h !in nc || h in nb)
    requires Releases(w, Weak, cells[h].ref)
    ensures var b := cells[h].ref;
            && b in ws
            && Shared(nc, nb, work[t := w], hard, weak, hs, ws[b := ws[b] - {ByHandle(h)} + {ByThread(t)}], obj, blocks)
  {
    hide Counts, Owners, Commons, Keyed, Else;
    var b := cells[h].ref;
    assert Refers(cells, busy, h, Weak, b);
    KeyedIn(hard, weak, hs, ws, blocks, b);
    CommonsKeys(hs, ws, obj, b);
    OwnersPass(Weak, cells, busy, work, ws, nc, nb, h, b, t, w);
    OwnersAside(Hard, cells, busy, work, hs, nc, nb, h);
    OwnersMove(Hard, nc, nb, work, hs, t, w);
    CountsPass(weak, ws, b, ByHandle(h), ByThread(t));
    CommonsKept(hs, ws, obj, b, ws[b] - {ByHandle(h)} + {ByThread(t)});
    KeyedKept(hard, weak, hs, ws, blocks, b, 0, ws[b] - {ByHandle(h)} + {ByThread(t)});
  }

  /** --hard_count; the object is on its way out if that was the last share. */
  lemma SharedLessHard(cells: Cells, busy: Busy, work: Works, hard: map<Block, int>, weak: map<Block, int>,
      hs: Shares, ws: Shares, obj: map<Block, Life>, blocks: set<Block>, t: Thread, w: Work)
    requires Shared(cells, busy, work, hard, weak, hs, ws, obj, blocks) && t in work && work[t].Release?
             && work[t].kind == Hard
    requires work[t].b in blocks && !w.Release?
    ensures var b := work[t].b;
            && b in hs && b in hard && b in obj && hard[b] > 0
            && Shared(cells, busy, work[t := w], hard[b := hard[b] - 1], weak, hs[b := hs[b] - {ByThread(t)}], ws, obj,
                      blocks)
            && (obj[b] != Over ==>
                  Shared(cells, busy, work[t := w], hard[b := hard[b] - 1], weak, hs[b := hs[b] - {ByThread(t)}], ws,
                         obj[b := Ending(t)], blocks))
  {
    hide Counts, Owners, Commons, Keyed;
    var b := work[t].b;
    KeyedIn(hard, weak, hs, ws, blocks, b);
    CommonsKeys(hs, ws, obj, b);
    OwnersDrop(Hard, cells, busy, work, hs, t, w);
    OwnersMove(Weak, cells, busy, work, ws, t, w);
    CountsLess(hard, hs, b, ByThread(t));
    CommonsKept(hs, ws, obj, b, hs[b] - {ByThread(t)});
    KeyedKept(hard, weak, hs, ws, blocks, b, hard[b] - 1, {});
    KeyedKept(hard[b := hard[b] - 1], weak, hs, ws, blocks, b, 0, hs[b] - {ByThread(t)});
    if obj[b] != Over { CommonsLife(hs[b := hs[b] - {ByThread(t)}], ws, obj, b, t); }
  }

  /** --weak_count */
  lemma SharedLessWeak(cells: Cells, busy: Busy, work: Works, hard: map<Block, int>, weak: map<Block, int>,
      hs: Shares, ws: Shares, obj: map<Block, Life>, blocks: set<Block>, t: Thread, w: Work)
    requires Shared(cells, busy, work, hard, weak, hs, ws, obj, blocks) && t in work && work[t].Release?
             && work[t].kind == Weak
    requires work[t].b in blocks && !w.Release?
    ensures var b := work[t].b;
            && b in ws && b in weak && weak[b] > 0
            && Shared(cells, busy, work[t := w], hard, weak[b := weak[b] - 1], hs, ws[b := ws[b] - {ByThread(t)}], obj,
                      blocks)
  {
    hide Counts, Owners, Commons, Keyed;
    var b := work[t].b;
    KeyedIn(hard, weak, hs, ws, blocks, b);
    CommonsKeys(hs, ws, obj, b);
    OwnersDrop(Weak, cells, busy, work, ws, t, w);
    OwnersMove(Hard, cells, busy, work, hs, t, w);
    CountsLess(weak, ws, b, ByThread(t));
    CommonsKept(hs, ws, obj, b, ws[b] - {ByThread(t)});
    KeyedKept(hard, weak, hs, ws, blocks, b, weak[b] - 1, {});
    KeyedKept(hard, weak[b := weak[b] - 1], hs, ws, blocks, b, 0, ws[b] - {ByThread(t)});
  }

  /** destroy(): the common weak share is now the thread's. */
  lemma SharedDestroy(cells: Cells, busy: Busy, work: Works, hard: map<Block, int>, weak: map<Block, int>, hs: Shares,
      ws: Shares, obj: map<Block, Life>, blocks: set<Block>, t: Thread, w: Work, b: Block)
    requires Shared(cells, busy, work, hard, weak, hs, ws, obj, blocks) && t in work && !work[t].Release?
             && b in blocks && b in obj && obj[b] != Over
    requires Releases(w, Weak, b)
    ensures b in ws
    ensures Shared(cells, busy, work[t := w], hard, weak, hs, ws[b := ws[b] - {Common} + {ByThread(t)}],
                   obj[b := Over], blocks)
  {
    hide Counts, Owners, Commons, Keyed;
    KeyedIn(hard, weak, hs, ws, blocks, b);
    OwnersCommon(cells, busy, work, ws, t, w, b);
    OwnersMove(Hard, cells, busy, work, hs, t, w);
    CommonsLife(hs, ws, obj, b, t);
    CountsPass(weak, ws, b, Common, ByThread(t));
    KeyedKept(hard, weak, hs, ws, blocks, b, 0, ws[b] - {Common} + {ByThread(t)});
  }

  /** hard_count++ for a handle that comes to refer to b. */
  lemma SharedMoreHard(cells: Cells, busy: Busy, work: Works, hard: map<Block, int>, weak: map<Block, int>,
      hs: Shares, ws: Shares, obj: map<Block, Life>, blocks: set<Block>, nc: Cells, nb: Busy, h: Handle, b: Block,
      t: Thread, w: Work)
    requires Shared(cells, busy, work, hard, weak, hs, ws, obj, blocks) && 0 !in blocks && b in blocks
    requires t in work && !work[t].Release? && !w.Release?
    requires Else(cells, busy, nc, nb, h) && Aside(cells, busy, h) && Refers(nc, nb, h, Hard, b)
    ensures b in hs && b in hard
    ensures Shared(nc, nb, work[t := w], hard[b := hard[b] + 1], weak, hs[b := hs[b] + {ByHandle(h)}], ws, obj, blocks)
  {
    KeyedIn(hard, weak, hs, ws, blocks, b);
    hide Counts, Owners, Commons, Keyed, Else, Aside;
    CommonsKeys(hs, ws, obj, b);
    OwnersAdd(Hard, cells, busy, work, hs, nc, nb, h, b);
    OwnersAside(Weak, cells, busy, work, ws, nc, nb, h);
    Turns(nc, nb, work, hs[b := hs[b] + {ByHandle(h)}], ws, t, w);
    CountsMore(hard, hs, b, ByHandle(h));
    CommonsKept(hs, ws, obj, b, hs[b] + {ByHandle(h)});
    KeyedKept(hard, weak, hs, ws, blocks, b, hard[b] + 1, {});
    KeyedKept(hard[b := hard[b] + 1], weak, hs, ws, blocks, b, 0, hs[b] + {ByHandle(h)});
  }

  lemma SharedMoreWeak(cells: Cells, busy: Busy, work: Works, hard: map<Block, int>, weak: map<Block, int>,
      hs: Shares, ws: Shares, obj: map<Block, Life>, blocks: set<Block>, nc: Cells, nb: Busy, h: Handle, b: Block,
      t: Thread, w: Work)
    requires Shared(cells, busy, work, hard, weak, hs, ws, obj, blocks) && 0 !in blocks && b in blocks
    requires t in work && !work[t].Release? && !w.Release?
    requires Else(cells, busy, nc, nb, h) && Aside(cells, busy, h) && Refers(nc, nb, h, Weak, b)
    ensures b in ws && b in weak
    ensures Shared(nc, nb, work[t := w], hard, weak[b := weak[b] + 1], hs, ws[b := ws[b] + {ByHandle(h)}], obj, blocks)
  {
    KeyedIn(hard, weak, hs, ws, blocks, b);
    hide Counts, Owners, Commons, Keyed, Else, Aside;
    CommonsKeys(hs, ws, obj, b);
    OwnersAdd(Weak, cells, busy, work, ws, nc, nb, h, b);
    OwnersAside(Hard, cells, busy, work, hs, nc, nb, h);
    Turns(nc, nb, work, hs, ws[b := ws[b] + {ByHandle(h)}], t, w);
    CountsMore(weak, ws, b, ByHandle(h));
    CommonsKept(hs, ws, obj, b, ws[b] + {ByHandle(h)});
    KeyedKept(hard, weak, hs, ws, blocks, b, weak[b] + 1, {});
    KeyedKept(hard, weak[b := weak[b] + 1], hs, ws, blocks, b, 0, ws[b] + {ByHandle(h)});
  }

  lemma CommonsKeys(hs: Shares, ws: Shares, obj: map<Block, Life>, b: Block)
    requires Commons(hs, ws, obj) && (b in hs || b in ws)
    ensures b in hs && b in ws && b in obj && Common !in hs[b] && (Common in ws[b] <==> obj[b] != Over)
  {
  }

  lemma RefIn(cells: Cells, work: Works, blocks: set<Block>, h: Handle)
    requires Known(cells, work, blocks) && h in cells
    ensures 0 !in blocks && (cells[h].ref == 0 || cells[h].ref in blocks)
  {
  }

  /** Two sets of handles that differ in one handle only. */
  lemma Differ(cells: Cells, busy: Busy, work: Works, nc: Cells, nb: Busy, h: Handle, blocks: set<Block>)
    requires Known(cells, work, blocks)
    requires forall g | g != h ::
             (g in cells <==> g in nc) && (g in busy <==> g in nb) && (g in cells ==> cells[g] == nc[g])
    ensures Else(cells, busy, nc, nb, h) && 0 !in blocks
  {
  }

  lemma NotBusy(cells: Cells, busy: Busy, work: Works, h: Handle)
    requires Takes(cells, busy, work) && h !in cells
    ensures h !in busy && Unread(work, h)
  {
    forall g | g in busy ensures g in cells { assert TakeOK(cells, busy, busy[g], TakeOf(work[busy[g]])); }
  }

  /** A thread that is not at a release, before or after, leaves both kinds of owners. */
  lemma Turns(cells: Cells, busy: Busy, work: Works, hs: Shares, ws: Shares, t: Thread, w: Work)
    requires Owners(Hard, cells, busy, work, hs) && Owners(Weak, cells, busy, work, ws) && t in work
             && !work[t].Release? && !w.Release?
    ensures Owners(Hard, cells, busy, work[t := w], hs) && Owners(Weak, cells, busy, work[t := w], ws)
  {
    hide Owners;
    OwnersMove(Hard, cells, busy, work, hs, t, w);
    OwnersMove(Weak, cells, busy, work, ws, t, w);
  }

  lemma OrderedMove(work: Works, hard: map<Block, int>, weak: map<Block, int>, obj: map<Block, Life>,
      blk: map<Block, Life>, destroyed: map<Block, int>, deleted: map<Block, int>, t: Thread, w: Work)
    requires Ordered(work, hard, weak, obj, blk, destroyed, deleted) && t in work
    requires !work[t].Destroy? && !work[t].Delete? && !w.Destroy? && !w.Delete?
    ensures Ordered(work[t := w], hard, weak, obj, blk, destroyed, deleted)
  {
    hide Lives;
    LivesMove(hard, obj, destroyed, work, Hard, t, w);
    LivesMove(weak, blk, deleted, work, Weak, t, w);
  }

  lemma OrderedLessHard(work: Works, hard: map<Block, int>, weak: map<Block, int>, obj: map<Block, Life>,
      blk: map<Block, Life>, destroyed: map<Block, int>, deleted: map<Block, int>, t: Thread, b: Block, w: Work)
    requires Ordered(work, hard, weak, obj, blk, destroyed, deleted) && t in work && work[t].Release? && b in hard
             && hard[b] > 0 && !w.Delete?
    ensures hard[b] > 1 && !w.Destroy? ==>
            Ordered(work[t := w], hard[b := hard[b] - 1], weak, obj, blk, destroyed, deleted)
    ensures hard[b] == 1 && w.Destroy? && w.b == b ==>
            Ordered(work[t := w], hard[b := hard[b] - 1], weak, obj[b := Ending(t)], blk, destroyed, deleted)
    ensures b in obj && obj[b] == Alive
  {
    LivesAlive(hard, obj, destroyed, work, Hard, b);
    hide Lives;
    LivesMove(weak, blk, deleted, work, Weak, t, w);
    if hard[b] > 1 && !w.Destroy? {
      LivesMove(hard, obj, destroyed, work, Hard, t, w);
      LivesCount(hard, obj, destroyed, work[t := w], Hard, b, hard[b] - 1);
    } else if hard[b] == 1 && w.Destroy? && w.b == b {
      LivesBegin(hard, obj, destroyed, work, Hard, t, w, b);
    }
  }

  lemma OrderedLessWeak(work: Works, hard: map<Block, int>, weak: map<Block, int>, obj: map<Block, Life>,
      blk: map<Block, Life>, destroyed: map<Block, int>, deleted: map<Block, int>, t: Thread, b: Block, w: Work)
    requires Ordered(work, hard, weak, obj, blk, destroyed, deleted) && t in work && work[t].Release? && b in weak
             && weak[b] > 0 && !w.Destroy?
    ensures weak[b] > 1 && !w.Delete? ==>
            Ordered(work[t := w], hard, weak[b := weak[b] - 1], obj, blk, destroyed, deleted)
    ensures weak[b] == 1 && w.Delete? && w.b == b ==>
            Ordered(work[t := w], hard, weak[b := weak[b] - 1], obj, blk[b := Ending(t)], destroyed, deleted)
  {
    hide Lives;
    LivesMove(hard, obj, destroyed, work, Hard, t, w);
    if weak[b] > 1 && !w.Delete? {
      LivesMove(weak, blk, deleted, work, Weak, t, w);
      LivesCount(weak, blk, deleted, work[t := w], Weak, b, weak[b] - 1);
    } else if weak[b] == 1 && w.Delete? && w.b == b {
      LivesBegin(weak, blk, deleted, work, Weak, t, w, b);
    }
  }

  lemma LivesAlive(count: map<Block, int>, life: map<Block, Life>, done: map<Block, int>, work: Works, what: Kind,
      b: Block)
    requires Lives(count, life, done, work, what) && b in count
    ensures b in life && (count[b] > 0 <==> life[b] == Alive)
  {
  }

  lemma OrderedDestroy(work: Works, hard: map<Block, int>, weak: map<Block, int>, obj: map<Block, Life>,
      blk: map<Block, Life>, destroyed: map<Block, int>, deleted: map<Block, int>, t: Thread, w: Work)
    requires Ordered(work, hard, weak, obj, blk, destroyed, deleted) && t in work && work[t].Destroy? && w.Release?
    ensures var b := work[t].b;
            && b in obj && b in destroyed && b in hard && obj[b] == Ending(t) && destroyed[b] == 0 && hard[b] == 0
            && Ordered(work[t := w], hard, weak, obj[b := Over], blk, destroyed[b := 1], deleted)
  {
    assert AtEnd(work[t], Hard);
    assert obj[work[t].b] == Ending(t);
    hide Lives;
    LivesDone(hard, obj, destroyed, work, Hard, t, w);
    LivesMove(weak, blk, deleted, work, Weak, t, w);
  }

  lemma OrderedDelete(work: Works, hard: map<Block, int>, weak: map<Block, int>, obj: map<Block, Life>,
      blk: map<Block, Life>, destroyed: map<Block, int>, deleted: map<Block, int>, t: Thread, w: Work)
    requires Ordered(work, hard, weak, obj, blk, destroyed, deleted) && t in work && work[t].Delete?
             && (w.Idle? || w.Acquire?)
    ensures var b := work[t].b;
            && b in blk && b in deleted && b in weak && deleted[b] == 0 && weak[b] == 0
            && Ordered(work[t := w], hard, weak, obj, blk[b := Over], destroyed, deleted[b := 1])
  {
    hide Lives;
    LivesDone(weak, blk, deleted, work, Weak, t, w);
    LivesMove(hard, obj, destroyed, work, Hard, t, w);
  }

  lemma OrderedMore(work: Works, hard: map<Block, int>, weak: map<Block, int>, obj: map<Block, Life>,
      blk: map<Block, Life>, destroyed: map<Block, int>, deleted: map<Block, int>, b: Block)
    requires Ordered(work, hard, weak, obj, blk, destroyed, deleted)
    ensures b in hard && hard[b] > 0 ==> Ordered(work, hard[b := hard[b] + 1], weak, obj, blk, destroyed, deleted)
    ensures b in weak && weak[b] > 0 ==> Ordered(work, hard, weak[b := weak[b] + 1], obj, blk, destroyed, deleted)
  {
    hide Lives;
    if b in hard && hard[b] > 0 { LivesCount(hard, obj, destroyed, work, Hard, b, hard[b] + 1); }
    if b in weak && weak[b] > 0 { LivesCount(weak, blk, deleted, work, Weak, b, weak[b] + 1); }
  }

  lemma OrderedNew(work: Works, hard: map<Block, int>, weak: map<Block, int>, obj: map<Block, Life>,
      blk: map<Block, Life>, destroyed: map<Block, int>, deleted: map<Block, int>, b: Block)
    requires Ordered(work, hard, weak, obj, blk, destroyed, deleted) && b !in hard && b !in weak
    ensures Ordered(work, hard[b := 1], weak[b := 1], obj[b := Alive], blk[b := Alive], destroyed[b := 0],
                    deleted[b := 0])
  {
    hide Lives;
    LivesNew(hard, obj, destroyed, work, Hard, b);
    LivesNew(weak, blk, deleted, work, Weak, b);
  }

  lemma UsesGoOn(cells: Cells, busy: Busy, work: Works, blocks: set<Block>, t: Thread, w: Work)
    requires Uses(cells, busy, work, blocks) && t in work && TakeOf(w) == TakeOf(work[t])
             && (w.Acquire? ==> w.take.Copy?)
    requires w.Idle? || w.Acquire? || w.b in blocks
    ensures Uses(cells, busy, work[t := w], blocks)
  {
    hide Takes, Known;
    TakesGoOn(cells, busy, work, t, w);
    KnownWork(cells, work, blocks, t, w);
  }

  /** What a reference can count on: a share of b is a share of a block that is still there. */
  lemma ReferenceKeeps(cells: Cells, busy: Busy, work: Works, hard: map<Block, int>, weak: map<Block, int>,
      hs: Shares, ws: Shares, obj: map<Block, Life>, blk: map<Block, Life>, destroyed: map<Block, int>,
      deleted: map<Block, int>, blocks: set<Block>, h: Handle)
    requires Shared(cells, busy, work, hard, weak, hs, ws, obj, blocks)
             && Ordered(work, hard, weak, obj, blk, destroyed, deleted)
    requires Known(cells, work, blocks) && h in cells && h !in busy && cells[h].ref != 0
    ensures var b := cells[h].ref;
            && b in weak && weak[b] > 0 && b in deleted && deleted[b] == 0
            && (cells[h].kind == Hard ==> b in hard && hard[b] > 0 && b in destroyed && destroyed[b] == 0)
  {
    var b, kind := cells[h].ref, cells[h].kind;
    RefIn(cells, work, blocks, h);
    KeyedIn(hard, weak, hs, ws, blocks, b);
    CommonsKeys(hs, ws, obj, b);
    assert Refers(cells, busy, h, kind, b);
    ShareOf(kind, cells, busy, work, if kind == Hard then hs else ws, b);
    ReferenceCounts(hard, weak, hs, ws, b);
    hide Owners, Counts, Commons, Keyed, Known;
    LivesAlive(hard, obj, destroyed, work, Hard, b);
    LivesAlive(weak, blk, deleted, work, Weak, b);
  }

  lemma ShareOf(kind: Kind, cells: Cells, busy: Busy, work: Works, shares: Shares, b: Block)
    requires Owners(kind, cells, busy, work, shares) && b in shares
    ensures forall h {:trigger Refers(cells, busy, h, kind, b)} | Refers(cells, busy, h, kind, b) ::
            ByHandle(h) in shares[b]
    ensures forall t {:trigger work[t]} | t in work && Releases(work[t], kind, b) :: ByThread(t) in shares[b]
  {
    assert Owned(kind, cells, busy, work, b, shares[b]);
  }

  lemma ReferenceCounts(hard: map<Block, int>, weak: map<Block, int>, hs: Shares, ws: Shares, b: Block)
    requires Counts(hard, hs) && Counts(weak, ws) && b in hs && b in ws
    ensures b in hard && b in weak && hard[b] >= 0 && weak[b] >= 0 && (hs[b] != {} <==> hard[b] > 0)
            && (ws[b] != {} <==> weak[b] > 0)
  {
  }

  /** Once nobody refers to it and no operation is under way, the object was destroyed and its control block
      deleted, once each. */
  lemma NothingLeft(cells: Cells, busy: Busy, work: Works, hard: map<Block, int>, weak: map<Block, int>, hs: Shares,
      ws: Shares, obj: map<Block, Life>, blk: map<Block, Life>, destroyed: map<Block, int>, deleted: map<Block, int>,
      blocks: set<Block>, b: Block)
    requires Shared(cells, busy, work, hard, weak, hs, ws, obj, blocks)
             && Ordered(work, hard, weak, obj, blk, destroyed, deleted)
    requires b in blocks && (forall t | t in work :: work[t].Idle?) && forall h | h in cells :: cells[h].ref != b
    ensures b in destroyed && destroyed[b] == 1 && b in deleted && deleted[b] == 1
  {
    KeyedIn(hard, weak, hs, ws, blocks, b);
    CommonsKeys(hs, ws, obj, b);
    Unowned(Hard, cells, busy, work, hs, b);
    Unowned(Weak, cells, busy, work, ws, b);
    ReferenceCounts(hard, weak, hs, ws, b);
    hide Owners, Counts, Commons, Keyed;
    LivesOver(hard, obj, destroyed, work, Hard, b);
    LivesOver(weak, blk, deleted, work, Weak, b);
  }

  lemma Unowned(kind: Kind, cells: Cells, busy: Busy, work: Works, shares: Shares, b: Block)
    requires Owners(kind, cells, busy, work, shares) && b in shares
    requires (forall t | t in work :: work[t].Idle?) && forall h | h in cells :: cells[h].ref != b
    ensures shares[b] <= {Common}
  {
    assert Owned(kind, cells, busy, work, b, shares[b]);
    forall o | o in shares[b]
      ensures o == Common
    {
      assert forall h :: !Refers(cells, busy, h, kind, b);
      assert forall h: Handle :: ByHandle(h) !in shares[b];
      assert forall t: Thread :: ByThread(t) !in shares[b];
    }
  }

  lemma LivesOver(count: map<Block, int>, life: map<Block, Life>, done: map<Block, int>, work: Works, what: Kind,
      b: Block)
    requires Lives(count, life, done, work, what) && b in count && forall t | t in work :: work[t].Idle?
    ensures b in life && b in done && (count[b] == 0 ==> life[b] == Over && done[b] == 1)
  {
  }

  /** The next step of a thread uses control block b. */
  ghost predicate Touches(w: Work, cells: Cells, b: Block) {
    match w
    case Idle => false
    case Release(_, c, _) => c == b
    case Destroy(c, _) => c == b
    case Delete(c, _) => c == b
    case Acquire(take) => take.Copy? && take.from in cells && cells[take.from].ref == b
  }

  lemma LifeEnds(count: map<Block, int>, life: map<Block, Life>, done: map<Block, int>, work: Works, what: Kind,
      b: Block)
    requires Lives(count, life, done, work, what) && b in count
    ensures b in life && b in done && count[b] >= 0 && (count[b] > 0 <==> life[b] == Alive)
            && done[b] == if life[b] == Over then 1 else 0
    ensures forall t {:trigger work[t]} | t in work && Ends(work[t], b, what) :: life[b] == Ending(t)
  {
    forall t {:trigger work[t]} | t in work && Ends(work[t], b, what)
      ensures life[b] == Ending(t)
    {
      assert AtEnd(work[t], what);
    }
  }

  /** The control block goes last: once no weak share is left the object was destroyed, and nobody has a hard share. */
  lemma NoWeakShare(cells: Cells, busy: Busy, work: Works, hard: map<Block, int>, weak: map<Block, int>, hs: Shares,
      ws: Shares, obj: map<Block, Life>, blk: map<Block, Life>, destroyed: map<Block, int>, deleted: map<Block, int>,
      blocks: set<Block>, b: Block)
    requires Shared(cells, busy, work, hard, weak, hs, ws, obj, blocks)
             && Ordered(work, hard, weak, obj, blk, destroyed, deleted)
    requires b in weak && b in blk && blk[b] != Alive
    ensures b in obj && obj[b] == Over && b in destroyed && destroyed[b] == 1 && b in hs && hs[b] == {} && b in ws
            && ws[b] == {}
  {
    KeyedIn(hard, weak, hs, ws, blocks, b);
    CommonsKeys(hs, ws, obj, b);
    ReferenceCounts(hard, weak, hs, ws, b);
    hide Owners, Counts, Commons, Keyed;
    LifeEnds(weak, blk, deleted, work, Weak, b);
    LifeEnds(hard, obj, destroyed, work, Hard, b);
  }

  /** The control block was deleted: nobody has a share, and its object was destroyed. */
  lemma DeletedGone(cells: Cells, busy: Busy, work: Works, hard: map<Block, int>, weak: map<Block, int>, hs: Shares,
      ws: Shares, obj: map<Block, Life>, blk: map<Block, Life>, destroyed: map<Block, int>, deleted: map<Block, int>,
      blocks: set<Block>, b: Block)
    requires Shared(cells, busy, work, hard, weak, hs, ws, obj, blocks)
    requires Ordered(work, hard, weak, obj, blk, destroyed, deleted)
    requires b in deleted && deleted[b] != 0
    ensures deleted[b] == 1 && b in destroyed && destroyed[b] == 1
    ensures b in hs && hs[b] == {} && b in ws && ws[b] == {} && b in obj && obj[b] == Over && b in blk && blk[b] == Over
  {
    assert b in weak by { assert weak.Keys == deleted.Keys; }
    LifeEnds(weak, blk, deleted, work, Weak, b);
    hide Shared, Ordered;
    NoWeakShare(cells, busy, work, hard, weak, hs, ws, obj, blk, destroyed, deleted, blocks, b);
  }

  /** A thread whose next step is not a copy does not use it. */
  lemma NotTouched(cells: Cells, busy: Busy, work: Works, hard: map<Block, int>, weak: map<Block, int>, hs: Shares,
      ws: Shares, obj: map<Block, Life>, blk: map<Block, Life>, destroyed: map<Block, int>, deleted: map<Block, int>,
      t: Thread, b: Block)
    requires Owners(Hard, cells, busy, work, hs) && Owners(Weak, cells, busy, work, ws)
    requires Lives(hard, obj, destroyed, work, Hard) && Lives(weak, blk, deleted, work, Weak)
    requires b in hs && hs[b] == {} && b in ws && ws[b] == {}
    requires b in obj && obj[b] == Over && b in blk && blk[b] == Over
    requires t in work && !work[t].Acquire?
    ensures !Touches(work[t], cells, b)
  {
    hide Owners;
    ShareOf(Hard, cells, busy, work, hs, b);
    ShareOf(Weak, cells, busy, work, ws, b);
    LifeEnds(hard, obj, destroyed, work, Hard, b);
    LifeEnds(weak, blk, deleted, work, Weak, b);
    hide Lives;
  }

  /** The object of a deleted control block was destroyed, and no thread is about to use the block. */
  lemma DeletedLast(cells: Cells, busy: Busy, work: Works, hard: map<Block, int>, weak: map<Block, int>, hs: Shares,
      ws: Shares, obj: map<Block, Life>, blk: map<Block, Life>, destroyed: map<Block, int>, deleted: map<Block, int>,
      blocks: set<Block>, b: Block)
    requires Shared(cells, busy, work, hard, weak, hs, ws, obj, blocks)
    requires Ordered(work, hard, weak, obj, blk, destroyed, deleted)
    requires Uses(cells, busy, work, blocks) && b in deleted && deleted[b] != 0
    ensures deleted[b] == 1 && b in destroyed && destroyed[b] == 1
    ensures forall t {:trigger work[t]} | t in work :: !Touches(work[t], cells, b)
  {
    hide Owners, Lives, Counts, Commons, Keyed, Uses, Touches;
    DeletedGone(cells, busy, work, hard, weak, hs, ws, obj, blk, destroyed, deleted, blocks, b);
    KeyedIn(hard, weak, hs, ws, blocks, b);
    KnownBlocks(cells, busy, work, blocks);
    forall t {:trigger work[t]} | t in work
      ensures !Touches(work[t], cells, b)
    {
      if work[t].Acquire? {
        AcquireFrom(cells, busy, work, hard, weak, hs, ws, obj, blk, destroyed, deleted, blocks, t);
      } else {
        NotTouched(cells, busy, work, hard, weak, hs, ws, obj, blk, destroyed, deleted, t, b);
      }
    }
  }

  lemma KnownBlocks(cells: Cells, busy: Busy, work: Works, blocks: set<Block>)
    requires Uses(cells, busy, work, blocks)
    ensures 0 !in blocks
  {
  }

  /** A thread copies a reference whose control block is there. */
  lemma AcquireFrom(cells: Cells, busy: Busy, work: Works, hard: map<Block, int>, weak: map<Block, int>, hs: Shares,
      ws: Shares, obj: map<Block, Life>, blk: map<Block, Life>, destroyed: map<Block, int>, deleted: map<Block, int>,
      blocks: set<Block>, t: Thread)
    requires Shared(cells, busy, work, hard, weak, hs, ws, obj, blocks)
             && Ordered(work, hard, weak, obj, blk, destroyed, deleted)
    requires Uses(cells, busy, work, blocks) && t in work
    ensures forall b | work[t].Acquire? && Touches(work[t], cells, b) && b != 0 :: b in deleted && deleted[b] == 0
  {
    forall b | work[t].Acquire? && Touches(work[t], cells, b) && b != 0
      ensures b in deleted && deleted[b] == 0
    {
      assert TakeOK(cells, busy, t, TakeOf(work[t]));
      ReferenceKeeps(cells, busy, work, hard, weak, hs, ws, obj, blk, destroyed, deleted, blocks, work[t].take.from);
    }
  }

  // ---------- the steps ----------

  /** What the program can see of the handles, counts and threads. */
  datatype View = View(cells: Cells, work: Works, hard: map<Block, int>, weak: map<Block, int>,
    destroyed: map<Block, int>, deleted: map<Block, int>)

  /** The steps from a place to the end of the operation, at most. */
  function Left(w: Work): nat {
    match w
    case Idle => 0
    case Release(Hard, _, k) => if k == Nothing then 4 else 5
    case Destroy(_, k) => if k == Nothing then 3 else 4
    case Release(Weak, _, k) => if k == Nothing then 2 else 3
    case Delete(_, k) => if k == Nothing then 1 else 2
    case Acquire(_) => 1
  }

  /** One step of thread t leads from s to n. */
  ghost predicate Moves(s: View, t: Thread, n: View) {
    t in s.work &&
    match s.work[t]
    case Idle => n == s
    case Release(Hard, b, k) =>
      && b in s.hard
      && n == s.(hard := s.hard[b := s.hard[b] - 1],
                 work := s.work[t := if s.hard[b] == 1 then Destroy(b, k) else Then(k)])
    case Destroy(b, k) => n == s.(destroyed := s.destroyed[b := 1], work := s.work[t := Release(Weak, b, k)])
    case Release(Weak, b, k) =>
      && b in s.weak
      && n == s.(weak := s.weak[b := s.weak[b] - 1],
                 work := s.work[t := if s.weak[b] == 1 then Delete(b, k) else Then(k)])
    case Delete(b, k) => n == s.(deleted := s.deleted[b := 1], work := s.work[t := Then(k)])
    case Acquire(k) => k.Copy? && k.from in s.cells && Copied(s, t, k, s.cells[k.from].ref, n)
  }

  /** Handle k.to comes to refer to b as k.from does, unless b is none or the last hard share of b is gone. */
  ghost predicate Copied(s: View, t: Thread, k: Take, b: Block, n: View)
    requires k.Copy?
  {
    if b == 0 || (k.kind == Hard && b in s.hard && s.hard[b] == 0) then
      n == s.(cells := s.cells[k.to := Cell(k.kind, 0)], work := s.work[t := Idle])
    else if k.kind == Hard then
      && b in s.hard
      && n == s.(cells := s.cells[k.to := Cell(Hard, b)], work := s.work[t := Idle], hard := s.hard[b := s.hard[b] + 1])
    else
      && b in s.weak
      && n == s.(cells := s.cells[k.to := Cell(Weak, b)], work := s.work[t := Idle], weak := s.weak[b := s.weak[b] + 1])
  }

  /** What the threads are told to do, one command after the other; Go is one atomic step. */
  datatype Command =
    | New(h: Handle, b: Block)
    | Copying(t: Thread, kind: Kind, to: Handle, from: Handle)
    | Assign(t: Thread, to: Handle, from: Handle)
    | Drop(t: Thread, h: Handle)
    | Go(t: Thread)

  /** A command leads from s to n; one that the callers must not give is passed over. */
  ghost predicate Obeys(s: View, c: Command, n: View) {
    match c
    case New(h, b) =>
      if h !in s.cells && b != 0 && b !in s.hard then
        n == View(s.cells[h := Cell(Hard, b)], s.work, s.hard[b := 1], s.weak[b := 1], s.destroyed[b := 0],
                  s.deleted[b := 0])
      else n == s
    case Copying(t, kind, to, from) =>
      if t in s.work && s.work[t] == Idle && to !in s.cells && from in s.cells && Unwritten(s.work, from) then
        n == s.(cells := s.cells[to := Cell(kind, 0)], work := s.work[t := Acquire(Copy(kind, to, from))])
      else n == s
    case Assign(t, to, from) =>
      if t in s.work && s.work[t] == Idle && to in s.cells && from in s.cells && to != from
         && Unwritten(s.work, to) && Unread(s.work, to) && Unwritten(s.work, from) then
        var k := Copy(s.cells[to].kind, to, from);
        n == s.(work := s.work[t := if s.cells[to].ref == 0 then Acquire(k)
                                    else Release(s.cells[to].kind, s.cells[to].ref, k)])
      else n == s
    case Drop(t, h) =>
      if t in s.work && s.work[t] == Idle && h in s.cells && Unwritten(s.work, h) && Unread(s.work, h) then
        n == s.(cells := s.cells - {h},
                work := s.work[t := if s.cells[h].ref == 0 then Idle
                                    else Release(s.cells[h].kind, s.cells[h].ref, Nothing)])
      else n == s
    case Go(t) => if t in s.work then Moves(s, t, n) else n == s
  }

  /** No operation takes more than five steps. */
  lemma NearsEnd(s: View, t: Thread, n: View)
    requires Moves(s, t, n) && s.work[t] != Idle
    ensures t in n.work && Left(n.work[t]) < Left(s.work[t]) <= 5
  {
  }

  // ---------- the handles, counts and threads ----------

  class World {
    var cells: Cells
    var work: Works
    var hard: map<Block, int>               // hard_count
    var weak: map<Block, int>               // weak_count
    var destroyed: map<Block, int>          // how often destroy() ran
    var deleted: map<Block, int>            // how often the control block was deleted
    ghost var busy: Busy                    // the handles that threads are writing
    ghost var hs: Shares                    // the owners of the hard shares
    ghost var ws: Shares                    // the owners of the weak shares
    ghost var obj: map<Block, Life>
    ghost var blk: map<Block, Life>
    ghost var blocks: set<Block>            // the control blocks ever made

    ghost predicate Valid()
      reads this
    {
      && Shared(cells, busy, work, hard, weak, hs, ws, obj, blocks)
      && Ordered(work, hard, weak, obj, blk, destroyed, deleted)
      && Uses(cells, busy, work, blocks)
    }

    ghost function Seen(): View
      reads `cells, `work, `hard, `weak, `destroyed, `deleted
    {
      View(cells, work, hard, weak, destroyed, deleted)
    }

    constructor (threads: set<Thread>)
      ensures Valid() && Seen() == View(map[], map t | t in threads :: Idle, map[], map[], map[], map[])
    {
      cells, hard, weak, destroyed, deleted := map[], map[], map[], map[], map[];
      work := map t | t in threads :: Idle;
      busy, hs, ws, obj, blk, blocks := map[], map[], map[], map[], map[], {};
    }

    /** HardReference(o) for a new object o: a new handle and a new control block b. */
    method Create(h: Handle, b: Block)
      requires Valid() && h !in cells && b != 0 && b !in blocks
      modifies `cells, `hard, `weak, `destroyed, `deleted, `hs, `ws, `obj, `blk, `blocks
      ensures Valid() && cells == old(cells)[h := Cell(Hard, b)] && hard == old(hard)[b := 1]
              && weak == old(weak)[b := 1] && destroyed == old(destroyed)[b := 0] && deleted == old(deleted)[b := 0]
      ensures blocks == old(blocks) + {b}
    {
      hide Shared, Ordered, Uses, Known;
      UsesCreate(cells, busy, work, blocks, h, b);
      SharedNew(cells, busy, work, hard, weak, hs, ws, obj, blocks, h, b);
      OrderedNew(work, hard, weak, obj, blk, destroyed, deleted, b);
      cells := cells[h := Cell(Hard, b)];
      hard, weak, destroyed, deleted := hard[b := 1], weak[b := 1], destroyed[b := 0], deleted[b := 0];
      Enroll(h, b);
    }

    ghost method Enroll(h: Handle, b: Block)
      modifies `hs, `ws, `obj, `blk, `blocks
      ensures hs == old(hs)[b := {ByHandle(h)}] && ws == old(ws)[b := {Common}]
      ensures obj == old(obj)[b := Alive] && blk == old(blk)[b := Alive] && blocks == old(blocks) + {b}
    {
      hs, ws := hs[b := {ByHandle(h)}], ws[b := {Common}];
      obj, blk := obj[b := Alive], blk[b := Alive];
      blocks := blocks + {b};
    }

    /** A copy constructor starts; hard and weak handles may be copied from each other. */
    method StartCopy(t: Thread, kind: Kind, to: Handle, from: Handle)
      requires Valid() && t in work && work[t].Idle? && to !in cells && from in cells && from !in busy
      modifies `cells, `busy, `work
      ensures Valid() && cells == old(cells)[to := Cell(kind, 0)]
              && work == old(work)[t := Acquire(Copy(kind, to, from))]
    {
      hide Shared, Ordered, Uses, Else;
      ghost var w := Acquire(Copy(kind, to, from));
      UsesCopy(cells, busy, work, blocks, t, kind, to, from);
      SharedAside(cells, busy, work, hard, weak, hs, ws, obj, blocks, cells[to := Cell(kind, 0)], busy[to := t], to,
          t, w);
      OrderedMove(work, hard, weak, obj, blk, destroyed, deleted, t, w);
      cells := cells[to := Cell(kind, 0)];
      busy := busy[to := t];
      work := work[t := Acquire(Copy(kind, to, from))];
    }

    /** An assignment starts: the old reference is to be released, and from is to be copied. */
    method StartAssign(t: Thread, to: Handle, from: Handle)
      requires Valid() && t in work && work[t].Idle? && to in cells && to !in busy && Unread(work, to)
               && from in cells && from !in busy
      modifies `busy, `work, `hs, `ws
      ensures Valid() && work == if to == from then old(work)
              else old(work)[t := Giving(cells[to], Copy(cells[to].kind, to, from))]
    {
      hide Shared, Ordered, Uses, Else, Unread, Giving;
      if to != from {
        var w := Giving(cells[to], Copy(cells[to].kind, to, from));
        UsesAssign(cells, busy, work, blocks, t, to, from);
        OrderedMove(work, hard, weak, obj, blk, destroyed, deleted, t, w);
        LetGo(cells, busy[to := t], t, w, to);
        busy := busy[to := t];
        work := work[t := w];
      }
    }

    /** A destructor starts. */
    method StartDrop(t: Thread, h: Handle)
      requires Valid() && t in work && work[t].Idle? && h in cells && h !in busy && Unread(work, h)
      modifies `cells, `work, `hs, `ws
      ensures Valid() && cells == old(cells) - {h} && work == old(work)[t := Giving(old(cells)[h], Nothing)]
    {
      hide Shared, Ordered, Uses, Else, Unread, Giving;
      var w := Giving(cells[h], Nothing);
      UsesDrop(cells, busy, work, blocks, t, h);
      OrderedMove(work, hard, weak, obj, blk, destroyed, deleted, t, w);
      LetGo(cells - {h}, busy, t, w, h);
      cells := cells - {h};
      work := work[t := w];
    }

    /** --hard_count */
    method ReleaseHard(t: Thread)
      requires Valid() && t in work && work[t].Release? && work[t].kind == Hard
      modifies `work, `hard, `hs, `obj
      ensures Valid() && old(work)[t].b in old(hard) && old(hard)[old(work)[t].b] > 0
      ensures hard == old(hard)[old(work)[t].b := old(hard)[old(work)[t].b] - 1]
      ensures work == old(work)[t := if hard[old(work)[t].b] == 0 then Destroy(old(work)[t].b, old(work)[t].then_)
              else Then(old(work)[t].then_)]
    {
      hide Shared, Ordered, Uses, Then;
      var b, k := work[t].b, work[t].then_;
      UsesBlock(cells, busy, work, blocks, t);
      SharedBlock(cells, busy, work, hard, weak, hs, ws, obj, blocks, b);
      var w := if hard[b] == 1 then Destroy(b, k) else Then(k);
      ThenIs(k);
      UsesGoOn(cells, busy, work, blocks, t, w);
      SharedLessHard(cells, busy, work, hard, weak, hs, ws, obj, blocks, t, w);
      OrderedLessHard(work, hard, weak, obj, blk, destroyed, deleted, t, b, w);
      hs := hs[b := hs[b] - {ByThread(t)}];
      if hard[b] == 1 { obj := obj[b := Ending(t)]; }
      hard := hard[b := hard[b] - 1];
      work := work[t := w];
    }

    /** destroy() */
    method DestroyObject(t: Thread)
      requires Valid() && t in work && work[t].Destroy?
      modifies `work, `destroyed, `ws, `obj
      ensures Valid() && old(work)[t].b in old(destroyed) && old(destroyed)[old(work)[t].b] == 0
              && destroyed == old(destroyed)[old(work)[t].b := 1]
      ensures old(work)[t].b in hard && hard[old(work)[t].b] == 0
              && work == old(work)[t := Release(Weak, old(work)[t].b, old(work)[t].then_)]
    {
      hide Shared, Ordered, Uses;
      var b := work[t].b;
      var w := Release(Weak, b, work[t].then_);
      UsesBlock(cells, busy, work, blocks, t);
      UsesGoOn(cells, busy, work, blocks, t, w);
      OrderedDestroy(work, hard, weak, obj, blk, destroyed, deleted, t, w);
      SharedDestroy(cells, busy, work, hard, weak, hs, ws, obj, blocks, t, w, b);
      destroyed := destroyed[b := destroyed[b] + 1];
      ws := ws[b := ws[b] - {Common} + {ByThread(t)}];
      obj := obj[b := Over];
      work := work[t := w];
    }

    /** --weak_count */
    method ReleaseWeak(t: Thread)
      requires Valid() && t in work && work[t].Release? && work[t].kind == Weak
      modifies `work, `weak, `ws, `blk
      ensures Valid() && old(work)[t].b in old(weak) && old(weak)[old(work)[t].b] > 0
      ensures weak == old(weak)[old(work)[t].b := old(weak)[old(work)[t].b] - 1]
      ensures work == old(work)[t := if weak[old(work)[t].b] == 0 then Delete(old(work)[t].b, old(work)[t].then_)
              else Then(old(work)[t].then_)]
    {
      hide Shared, Ordered, Uses, Then;
      var b, k := work[t].b, work[t].then_;
      UsesBlock(cells, busy, work, blocks, t);
      SharedBlock(cells, busy, work, hard, weak, hs, ws, obj, blocks, b);
      var w := if weak[b] == 1 then Delete(b, k) else Then(k);
      ThenIs(k);
      UsesGoOn(cells, busy, work, blocks, t, w);
      SharedLessWeak(cells, busy, work, hard, weak, hs, ws, obj, blocks, t, w);
      OrderedLessWeak(work, hard, weak, obj, blk, destroyed, deleted, t, b, w);
      ws := ws[b := ws[b] - {ByThread(t)}];
      if weak[b] == 1 { blk := blk[b := Ending(t)]; }
      weak := weak[b := weak[b] - 1];
      work := work[t := w];
    }

    lemma LastWeak(t: Thread)
      requires Valid() && t in work && work[t].Delete?
      ensures work[t].b in destroyed && destroyed[work[t].b] == 1
    {
      hide Shared, Uses;
      assert AtEnd(work[t], Weak);
      assert work[t].b in blk && blk[work[t].b] == Ending(t) && work[t].b in weak;
      hide Ordered;
      NoWeakShare(cells, busy, work, hard, weak, hs, ws, obj, blk, destroyed, deleted, blocks, work[t].b);
    }

    /** delete this */
    method DeleteBlock(t: Thread)
      requires Valid() && t in work && work[t].Delete?
      modifies `work, `deleted, `blk
      ensures Valid() && old(work)[t].b in old(deleted) && old(deleted)[old(work)[t].b] == 0
              && deleted == old(deleted)[old(work)[t].b := 1]
      ensures old(work)[t].b in weak && weak[old(work)[t].b] == 0 && work == old(work)[t := Then(old(work)[t].then_)]
      ensures old(work)[t].b in destroyed && destroyed[old(work)[t].b] == 1
    {
      hide Shared, Ordered, Uses, Then;
      LastWeak(t);
      var b, k := work[t].b, work[t].then_;
      ThenIs(k);
      UsesGoOn(cells, busy, work, blocks, t, Then(k));
      SharedTurn(cells, busy, work, hard, weak, hs, ws, obj, blocks, t, Then(k));
      OrderedDelete(work, hard, weak, obj, blk, destroyed, deleted, t, Then(k));
      deleted := deleted[b := deleted[b] + 1];
      blk := blk[b := Over];
      work := work[t := Then(k)];
    }

    method TakeHard(h: Handle, b: Block)
      requires b in hard && b in hs
      modifies `hard, `hs, `cells
      ensures hard == old(hard)[b := old(hard)[b] + 1] && hs == old(hs)[b := old(hs)[b] + {ByHandle(h)}]
              && cells == old(cells)[h := Cell(Hard, b)]
    {
      hard := hard[b := hard[b] + 1];
      hs := hs[b := hs[b] + {ByHandle(h)}];
      cells := cells[h := Cell(Hard, b)];
    }

    method TakeWeak(h: Handle, b: Block)
      requires b in weak && b in ws
      modifies `weak, `ws, `cells
      ensures weak == old(weak)[b := old(weak)[b] + 1] && ws == old(ws)[b := old(ws)[b] + {ByHandle(h)}]
              && cells == old(cells)[h := Cell(Weak, b)]
    {
      weak := weak[b := weak[b] + 1];
      ws := ws[b := ws[b] + {ByHandle(h)}];
      cells := cells[h := Cell(Weak, b)];
    }

    /** The reference is copied and counted; a hard handle made from a weak one is NULL if no hard share is left. */
    method AcquireCopy(t: Thread)
      requires Valid() && t in work && work[t].Acquire?
      modifies `cells, `work, `hard, `weak, `busy, `hs, `ws
      ensures Valid() && work == old(work)[t := Idle]
      ensures var k := old(work)[t].take;
              k.Copy? && k.from in old(cells) && (old(cells)[k.from].ref != 0 ==>
                  old(cells)[k.from].ref in old(hard) && old(cells)[k.from].ref in old(weak))
      ensures var k := old(work)[t].take; var b := old(cells)[k.from].ref;
              var lost := b == 0 || (k.kind == Hard && old(hard)[b] == 0);
              && cells == old(cells)[k.to := Cell(k.kind, if lost then 0 else b)]
              && hard == (if lost || k.kind == Weak then old(hard) else old(hard)[b := old(hard)[b] + 1])
              && weak == (if lost || k.kind == Hard then old(weak) else old(weak)[b := old(weak)[b] + 1])
    {
      hide Shared, Ordered, Uses, Else;
      var k := work[t].take;
      Source(cells, busy, work, hard, weak, hs, ws, obj, blk, destroyed, deleted, blocks, t);
      var b := cells[k.from].ref;
      OrderedMove(work, hard, weak, obj, blk, destroyed, deleted, t, Idle);
      if b == 0 || (k.kind == Hard && cells[k.from].kind == Weak && hard[b] == 0) {
        UsesEnd(cells, busy, work, blocks, t, Cell(k.kind, 0));
        SharedAside(cells, busy, work, hard, weak, hs, ws, obj, blocks, cells[k.to := Cell(k.kind, 0)],
            busy - {k.to}, k.to, t, Idle);
        cells := cells[k.to := Cell(k.kind, 0)];
      } else if k.kind == Weak {
        UsesEnd(cells, busy, work, blocks, t, Cell(Weak, b));
        SharedMoreWeak(cells, busy, work, hard, weak, hs, ws, obj, blocks, cells[k.to := Cell(Weak, b)],
            busy - {k.to}, k.to, b, t, Idle);
        OrderedMore(work[t := Idle], hard, weak, obj, blk, destroyed, deleted, b);
        TakeWeak(k.to, b);
      } else {
        UsesEnd(cells, busy, work, blocks, t, Cell(Hard, b));
        SharedMoreHard(cells, busy, work, hard, weak, hs, ws, obj, blocks, cells[k.to := Cell(Hard, b)],
            busy - {k.to}, k.to, b, t, Idle);
        OrderedMore(work[t := Idle], hard, weak, obj, blk, destroyed, deleted, b);
        TakeHard(k.to, b);
      }
      busy := busy - {k.to};
      work := work[t := Idle];
    }

    /** The next step of a thread that is inside an operation. */
    method Step(t: Thread)
      requires Valid() && t in work
      modifies this
      ensures Valid() && Moves(old(Seen()), t, Seen())
    {
      hide Shared, Ordered, Uses, Then;
      match work[t]
      case Idle =>
      case Release(Hard, _, _) => ReleaseHard(t);
      case Release(Weak, _, _) => ReleaseWeak(t);
      case Destroy(_, _) => DestroyObject(t);
      case Delete(_, _) => DeleteBlock(t);
      case Acquire(_) => AcquireCopy(t);
    }

    /** The share of a handle, if it has one, passes to the thread that is going to release it. */
    ghost method LetGo(nc: Cells, nb: Busy, t: Thread, w: Work, h: Handle)
      requires Shared(cells, busy, work, hard, weak, hs, ws, obj, blocks) && t in work && work[t].Idle? && 0 !in blocks
      requires h in cells && h !in busy && Else(cells, busy, nc, nb, h) && (h !in nc || h in nb)
      requires if cells[h].ref == 0 then !w.Release?
               else cells[h].ref in blocks && Releases(w, cells[h].kind, cells[h].ref)
      modifies `hs, `ws
      ensures Shared(nc, nb, work[t := w], hard, weak, hs, ws, obj, blocks)
    {
      hide Shared, Else;
      var b := cells[h].ref;
      if b == 0 {
        SharedAside(cells, busy, work, hard, weak, hs, ws, obj, blocks, nc, nb, h, t, w);
      } else if cells[h].kind == Hard {
        SharedPassHard(cells, busy, work, hard, weak, hs, ws, obj, blocks, nc, nb, h, t, w);
        hs := hs[b := hs[b] - {ByHandle(h)} + {ByThread(t)}];
      } else {
        SharedPassWeak(cells, busy, work, hard, weak, hs, ws, obj, blocks, nc, nb, h, t, w);
        ws := ws[b := ws[b] - {ByHandle(h)} + {ByThread(t)}];
      }
    }
  }

  lemma SharedNew(cells: Cells, busy: Busy, work: Works, hard: map<Block, int>, weak: map<Block, int>, hs: Shares,
      ws: Shares, obj: map<Block, Life>, blocks: set<Block>, h: Handle, b: Block)
    requires Shared(cells, busy, work, hard, weak, hs, ws, obj, blocks) && Known(cells, work, blocks) && h !in cells
             && h !in busy
    requires b !in blocks && b != 0
    ensures Shared(cells[h := Cell(Hard, b)], busy, work, hard[b := 1], weak[b := 1], hs[b := {ByHandle(h)}],
                   ws[b := {Common}], obj[b := Alive], blocks + {b})
    ensures b !in hard && b !in weak
  {
    KeyedIn(hard, weak, hs, ws, blocks, b);
    hide Counts, Owners, Commons, Known, Keyed;
    SharedCreate(cells, busy, work, hard, weak, hs, ws, obj, blocks, h, b);
  }

  lemma UsesCreate(cells: Cells, busy: Busy, work: Works, blocks: set<Block>, h: Handle, b: Block)
    requires Uses(cells, busy, work, blocks) && h !in cells && b != 0
    ensures Uses(cells[h := Cell(Hard, b)], busy, work, blocks + {b}) && h !in busy && Known(cells, work, blocks)
  {
    NotBusy(cells, busy, work, h);
    TakesCreate(cells, busy, work, h, Cell(Hard, b));
    KnownBlock(cells, work, blocks, b);
    KnownCell(cells, work, blocks + {b}, h, Cell(Hard, b));
  }

  lemma UsesCopy(cells: Cells, busy: Busy, work: Works, blocks: set<Block>, t: Thread, kind: Kind, to: Handle,
      from: Handle)
    requires Uses(cells, busy, work, blocks) && t in work && work[t].Idle? && to !in cells && from in cells
             && from !in busy
    ensures Uses(cells[to := Cell(kind, 0)], busy[to := t], work[t := Acquire(Copy(kind, to, from))], blocks)
    ensures Else(cells, busy, cells[to := Cell(kind, 0)], busy[to := t], to) && 0 !in blocks
  {
    var w, nc := Acquire(Copy(kind, to, from)), cells[to := Cell(kind, 0)];
    NotBusy(cells, busy, work, to);
    Differ(cells, busy, work, nc, busy[to := t], to, blocks);
    hide Takes, Known;
    TakesStart(cells, busy, work, t, w, nc);
    KnownCell(cells, work, blocks, to, Cell(kind, 0));
    KnownWork(nc, work, blocks, t, w);
  }

  lemma UsesAssign(cells: Cells, busy: Busy, work: Works, blocks: set<Block>, t: Thread, to: Handle, from: Handle)
    requires Uses(cells, busy, work, blocks) && t in work && work[t].Idle?
    requires to in cells && to !in busy && Unread(work, to) && from in cells && from !in busy && from != to
    ensures var w := Giving(cells[to], Copy(cells[to].kind, to, from));
            && Uses(cells, busy[to := t], work[t := w], blocks) && !w.Destroy? && !w.Delete?
            && (if cells[to].ref == 0 then !w.Release?
                else cells[to].ref in blocks && Releases(w, cells[to].kind, cells[to].ref))
    ensures Else(cells, busy, cells, busy[to := t], to) && 0 !in blocks
  {
    var w := Giving(cells[to], Copy(cells[to].kind, to, from));
    Differ(cells, busy, work, cells, busy[to := t], to, blocks);
    RefIn(cells, work, blocks, to);
    hide Takes, Known;
    TakesStart(cells, busy, work, t, w, cells);
    KnownWork(cells, work, blocks, t, w);
  }

  lemma UsesDrop(cells: Cells, busy: Busy, work: Works, blocks: set<Block>, t: Thread, h: Handle)
    requires Uses(cells, busy, work, blocks) && t in work && work[t].Idle? && h in cells && h !in busy
             && Unread(work, h)
    ensures var w := Giving(cells[h], Nothing);
            && Uses(cells - {h}, busy, work[t := w], blocks) && !w.Destroy? && !w.Delete?
            && (if cells[h].ref == 0 then !w.Release?
                else cells[h].ref in blocks && Releases(w, cells[h].kind, cells[h].ref))
    ensures Else(cells, busy, cells - {h}, busy, h) && 0 !in blocks
  {
    var w := Giving(cells[h], Nothing);
    Differ(cells, busy, work, cells - {h}, busy, h, blocks);
    RefIn(cells, work, blocks, h);
    TakesDrop(cells, busy, work, t, w, h);
    hide Takes, Known;
    KnownCell(cells, work, blocks, h, Cell(Hard, 0));
    KnownWork(cells - {h}, work, blocks, t, w);
  }

  lemma UsesEnd(cells: Cells, busy: Busy, work: Works, blocks: set<Block>, t: Thread, c: Cell)
    requires Uses(cells, busy, work, blocks) && t in work && work[t].Acquire? && c.kind == work[t].take.kind
             && (c.ref == 0 || c.ref in blocks)
    ensures var h := work[t].take.to;
            && Uses(cells[h := c], busy - {h}, work[t := Idle], blocks)
            && Else(cells, busy, cells[h := c], busy - {h}, h) && Aside(cells, busy, h)
            && (c.ref == 0 ==> Aside(cells[h := c], busy - {h}, h))
            && Refers(cells[h := c], busy - {h}, h, c.kind, c.ref) && 0 !in blocks
  {
    var h := work[t].take.to;
    assert TakeOf(work[t]) == work[t].take;
    assert TakeOK(cells, busy, t, work[t].take);
    Differ(cells, busy, work, cells[h := c], busy - {h}, h, blocks);
    hide Takes, Known;
    TakesEnd(cells, busy, work, t, c);
    KnownCell(cells, work, blocks, h, c);
    KnownWork(cells[h := c], work, blocks, t, Idle);
  }

  lemma UsesBlock(cells: Cells, busy: Busy, work: Works, blocks: set<Block>, t: Thread)
    requires Uses(cells, busy, work, blocks) && t in work && !work[t].Idle? && !work[t].Acquire?
    ensures work[t].b in blocks
  {
  }

  lemma ThenIs(k: Take)
    ensures var w := Then(k); (w.Idle? || w.Acquire?) && TakeOf(w) == k && (w.Acquire? ==> w.take == k && k.Copy?)
  {
  }

  lemma SharedTurn(cells: Cells, busy: Busy, work: Works, hard: map<Block, int>, weak: map<Block, int>, hs: Shares,
      ws: Shares, obj: map<Block, Life>, blocks: set<Block>, t: Thread, w: Work)
    requires Shared(cells, busy, work, hard, weak, hs, ws, obj, blocks) && t in work && !work[t].Release? && !w.Release?
    ensures Shared(cells, busy, work[t := w], hard, weak, hs, ws, obj, blocks)
  {
    hide Owners, Counts, Commons, Keyed;
    Turns(cells, busy, work, hs, ws, t, w);
  }

  lemma SharedBlock(cells: Cells, busy: Busy, work: Works, hard: map<Block, int>, weak: map<Block, int>, hs: Shares,
      ws: Shares, obj: map<Block, Life>, blocks: set<Block>, b: Block)
    requires Shared(cells, busy, work, hard, weak, hs, ws, obj, blocks) && b in blocks
    ensures b in hard && b in weak && b in hs && b in ws && b in obj
  {
    KeyedIn(hard, weak, hs, ws, blocks, b);
    CommonsKeys(hs, ws, obj, b);
  }

  /** What a thread finds in the handle that it copies. */
  lemma Source(cells: Cells, busy: Busy, work: Works, hard: map<Block, int>, weak: map<Block, int>, hs: Shares,
      ws: Shares, obj: map<Block, Life>, blk: map<Block, Life>, destroyed: map<Block, int>, deleted: map<Block, int>,
      blocks: set<Block>, t: Thread)
    requires Shared(cells, busy, work, hard, weak, hs, ws, obj, blocks)
             && Ordered(work, hard, weak, obj, blk, destroyed, deleted)
    requires Uses(cells, busy, work, blocks) && t in work && work[t].Acquire?
    ensures var k := work[t].take;
            && k.Copy? && k.from in cells && 0 !in blocks
            && var c := cells[k.from];
               c.ref != 0 ==>
                 c.ref in blocks && c.ref in hard && c.ref in weak && c.ref in hs && c.ref in ws && weak[c.ref] > 0
                     && (c.kind == Hard ==> hard[c.ref] > 0)
                 && hard[c.ref] >= 0
  {
    var k := work[t].take;
    assert TakeOf(work[t]) == k;
    assert TakeOK(cells, busy, t, k);
    RefIn(cells, work, blocks, k.from);
    var b := cells[k.from].ref;
    if b != 0 {
      SharedBlock(cells, busy, work, hard, weak, hs, ws, obj, blocks, b);
      ReferenceCounts(hard, weak, hs, ws, b);
      hide Shared, Ordered, Takes;
      ReferenceKeeps(cells, busy, work, hard, weak, hs, ws, obj, blk, destroyed, deleted, blocks, k.from);
    }
  }

  // ---------- whole runs ----------

  /** Whatever the order of the commands, a handle at rest refers to a control block that was not deleted, and a
      hard one to an object that was not destroyed; a control block is deleted after its object was destroyed, and
      no thread is about to use a deleted one; what nobody refers to in the end was destroyed and deleted once.
      Commands that the callers must not give, such as writing a handle that another thread is reading, are passed
      over. */
  method Run(threads: set<Thread>, script: seq<Command>) returns (w: World, ghost trace: seq<View>)
    ensures |trace| == |script| + 1 && trace[|script|] == w.Seen()
    ensures trace[0] == View(map[], map t | t in threads :: Idle, map[], map[], map[], map[])
    ensures forall i | 0 <= i < |script| :: Obeys(trace[i], script[i], trace[i + 1])
    ensures w.Valid()
    ensures forall h | h in w.cells && h !in w.busy && w.cells[h].ref != 0 ::
      var b := w.cells[h].ref;
      && b in w.deleted && w.deleted[b] == 0
      && (w.cells[h].kind == Hard ==> b in w.destroyed && w.destroyed[b] == 0)
    ensures (forall t | t in w.work :: w.work[t].Idle?) ==>
      forall b | b in w.blocks && (forall h | h in w.cells :: w.cells[h].ref != b) ::
        b in w.destroyed && w.destroyed[b] == 1 && b in w.deleted && w.deleted[b] == 1
    ensures forall b | b in w.deleted && w.deleted[b] != 0 ::
      && w.deleted[b] == 1 && b in w.destroyed && w.destroyed[b] == 1
      && forall t | t in w.work :: !Touches(w.work[t], w.cells, b)
  {
    w := new World(threads);
    hide Shared, Ordered, Uses, Obeys;
    trace := [w.Seen()];
    for i := 0 to |script|
      invariant fresh(w) && w.Valid() && |trace| == i + 1 && trace[i] == w.Seen()
      invariant trace[0] == View(map[], map t | t in threads :: Idle, map[], map[], map[], map[])
      invariant forall j | 0 <= j < i :: Obeys(trace[j], script[j], trace[j + 1])
    {
      Obey(w, script[i]);
      trace := trace + [w.Seen()];
    }
    forall h | h in w.cells && h !in w.busy && w.cells[h].ref != 0
      ensures w.cells[h].ref in w.deleted && w.deleted[w.cells[h].ref] == 0
      ensures w.cells[h].kind == Hard ==> w.cells[h].ref in w.destroyed && w.destroyed[w.cells[h].ref] == 0
    {
      UsesKnown(w.cells, w.busy, w.work, w.blocks);
      ReferenceKeeps(w.cells, w.busy, w.work, w.hard, w.weak, w.hs, w.ws, w.obj, w.blk, w.destroyed, w.deleted,
          w.blocks, h);
    }
    forall b | b in w.deleted && w.deleted[b] != 0
      ensures w.deleted[b] == 1 && b in w.destroyed && w.destroyed[b] == 1
              && forall t | t in w.work :: !Touches(w.work[t], w.cells, b)
    {
      DeletedLast(w.cells, w.busy, w.work, w.hard, w.weak, w.hs, w.ws, w.obj, w.blk, w.destroyed, w.deleted,
          w.blocks, b);
    }
    if forall t | t in w.work :: w.work[t].Idle? {
      forall b | b in w.blocks && (forall h | h in w.cells :: w.cells[h].ref != b)
        ensures b in w.destroyed && w.destroyed[b] == 1 && b in w.deleted && w.deleted[b] == 1
      {
        NothingLeft(w.cells, w.busy, w.work, w.hard, w.weak, w.hs, w.ws, w.obj, w.blk, w.destroyed, w.deleted,
            w.blocks, b);
      }
    }
  }

  lemma UsesKnown(cells: Cells, busy: Busy, work: Works, blocks: set<Block>)
    requires Uses(cells, busy, work, blocks)
    ensures Known(cells, work, blocks)
  {
  }

  lemma NotYet(cells: Cells, busy: Busy, work: Works, hard: map<Block, int>, weak: map<Block, int>, hs: Shares,
      ws: Shares, obj: map<Block, Life>, blocks: set<Block>, b: Block)
    requires Shared(cells, busy, work, hard, weak, hs, ws, obj, blocks) && b !in hard
    ensures b !in blocks
  {
    KeyedIn(hard, weak, hs, ws, blocks, b);
  }

  /** No thread writes the handle. */
  predicate Unwritten(work: Works, h: Handle) {
    forall t {:trigger work[t]} | t in work && TakeOf(work[t]).Copy? :: TakeOf(work[t]).to != h
  }

  lemma AtRest(cells: Cells, busy: Busy, work: Works, blocks: set<Block>, h: Handle)
    requires Uses(cells, busy, work, blocks) && Unwritten(work, h)
    ensures h !in busy
  {
    forall g | g in busy
      ensures !Unwritten(work, g)
    {
      var t := busy[g];
      assert TakeOf(work[t]).to == g;
    }
  }

  method Obey(w: World, c: Command)
    requires w.Valid()
    modifies w
    ensures w.Valid() && Obeys(old(w.Seen()), c, w.Seen())
  {
    hide Shared, Ordered, Uses, Unwritten, Unread, Moves;
    match c
    case New(h, b) =>
      if h !in w.cells && b != 0 && b !in w.hard {
        NotYet(w.cells, w.busy, w.work, w.hard, w.weak, w.hs, w.ws, w.obj, w.blocks, b);
        w.Create(h, b);
      }
    case Copying(t, kind, to, from) =>
      if t in w.work && w.work[t].Idle? && to !in w.cells && from in w.cells && Unwritten(w.work, from) {
        AtRest(w.cells, w.busy, w.work, w.blocks, from);
        w.StartCopy(t, kind, to, from);
      }
    case Assign(t, to, from) =>
      if t in w.work && w.work[t].Idle? && to in w.cells && from in w.cells
         && Unwritten(w.work, to) && Unread(w.work, to) && Unwritten(w.work, from) {
        AtRest(w.cells, w.busy, w.work, w.blocks, to);
        AtRest(w.cells, w.busy, w.work, w.blocks, from);
        w.StartAssign(t, to, from);
      }
    case Drop(t, h) =>
      if t in w.work && w.work[t].Idle? && h in w.cells && Unwritten(w.work, h) && Unread(w.work, h) {
        AtRest(w.cells, w.busy, w.work, w.blocks, h);
        w.StartDrop(t, h);
      }
    case Go(t) =>
      if t in w.work { w.Step(t); }
  }
}
