/** The inner loops of the B-tree on values: what is done after k rounds, and why one more round
    of writes extends it. */
module IndexLoops {
  import opened IndexModel
  import opened IndexSteps

  // ---------- single writes ----------

  function WithSlot(s: Store, p: int, j: int, x: Slot): Store
    requires 0 <= p < |s.pg| && 0 <= j < |s.pg[p].slots|
  {
    s.(pg := s.pg[p := s.pg[p].(slots := s.pg[p].slots[j := x])])
  }

  function WithBounds(s: Store, p: int, l: int, r: int): Store
    requires 0 <= p < |s.pg|
  {
    s.(pg := s.pg[p := s.pg[p].(l := l, r := r)])
  }

  function WithParent(s: Store, p: int, q: int, k: int): Store
    requires 0 <= p < |s.par| && 0 <= p < |s.pp|
  {
    s.(par := s.par[p := q], pp := s.pp[p := k])
  }

  /** Every used child slot j of page p, other than `but`, holds a page that hangs there. */
  ghost predicate LinkedBut(s: Store, p: int, but: int) {
    && 0 < p < |s.pg| == |s.par| == |s.pp| && s.pg[p].Framed()
    && (forall j {:trigger Kid(s, p, j)} | s.pg[p].l <= j <= s.pg[p].r && j != but ::
          IsKid(s, p, Kid(s, p, j)) && s.pp[Kid(s, p, j)] == j && Kid(s, p, j) != p)
  }

  function WithPlace(s: Store, c: int, k: int): Store
    requires 0 <= c < |s.par| && 0 <= c < |s.pp|
  {
    WithParent(s, c, s.par[c], k)
  }

  /** One more child of page p, next to the range that has moved, moves along. */
  lemma PlaceMoves(s: Store, t: Store, u: Store, p: int, but: int, lo: int, hi: int, d: int, k: int)
    requires LinkedBut(s, p, but) && k != but && s.pg[p].l <= k <= s.pg[p].r && (k == lo - 1 || k == hi + 1)
             && lo <= hi + 1
    requires PlacesShifted(s, t, p, lo, hi, d) && u.par == t.par && u.pp == t.pp
    ensures 0 < Kid(s, p, k) < |s.pg| && t.pp[Kid(s, p, k)] == k
    ensures k == lo - 1 ==> PlacesShifted(s, WithPlace(u, Kid(s, p, k), k + d), p, k, hi, d)
    ensures k == hi + 1 ==> PlacesShifted(s, WithPlace(u, Kid(s, p, k), k + d), p, lo, k, d)
  {
    var c := Kid(s, p, k);
    assert IsKid(s, p, c);
  }

  // ---------- sliding down ----------

  /** Slots l .. l + k of page p have been copied to to .. to + k, and their children follow. */
  ghost predicate SlideDownDone(s: Store, t: Store, p: int, to: int, k: int) {
    && LinkedBut(s, p, -1) && 0 <= to <= s.pg[p].l && 0 <= k <= s.pg[p].Size()
    && |t.pg| == |s.pg| && |t.pg[p].slots| == |s.pg[p].slots|
    && t.pg == s.pg[p := s.pg[p].(slots := t.pg[p].slots)]
    && (forall j {:trigger t.pg[p].slots[j]} | to <= j < to + k ::
       t.pg[p].slots[j] == s.pg[p].slots[j - to + s.pg[p].l])
    && (forall j {:trigger t.pg[p].slots[j]} | s.pg[p].l + k <= j <= s.pg[p].r :: t.pg[p].slots[j] == s.pg[p].slots[j])
    && PlacesShifted(s, t, p, s.pg[p].l, s.pg[p].l + k - 1, to - s.pg[p].l)
  }

  lemma SlideDownStart(s: Store, p: int, to: int)
    requires LinkedBut(s, p, -1) && 0 <= to <= s.pg[p].l
    ensures SlideDownDone(s, s, p, to, 0)
  {
  }

  lemma SlideDownStep(s: Store, t: Store, p: int, to: int, k: int) returns (c: nat)
    requires SlideDownDone(s, t, p, to, k) && k < s.pg[p].Size()
    ensures c == Kid(s, p, s.pg[p].l + k) && 0 < c < |s.pg| && t.pg[p].slots[s.pg[p].l + k].child == c
    ensures var u := WithSlot(t, p, to + k, t.pg[p].slots[s.pg[p].l + k]);
            u.pg[p].slots[to + k].child == c && SlideDownDone(s, WithPlace(u, c, to + k), p, to, k + 1)
  {
    c := Kid(s, p, s.pg[p].l + k);
  }

  lemma SlideDownEnd(s: Store, t: Store, p: int, to: int) returns (c: nat)
    requires 0 <= p < |s.pg| && SlideDownDone(s, t, p, to, s.pg[p].Size()) && !ChildFree(s.pg[p])
    ensures c == Kid(s, p, s.pg[p].r) && 0 < c < |s.pg| && t.pg[p].slots[s.pg[p].r].child == c
    ensures var k := to + s.pg[p].Size();
            var u := WithChild(t, p, k, s.pg[p].r);
            var w := WithBounds(WithPlace(u, c, k), p, to, k);
            u.pg[p].slots[k].child == c && Slid(s, w, p, w.pg[p], to)
  {
    c := Kid(s, p, s.pg[p].r);
  }

  // ---------- copying within a page ----------

  /** copy_key: the entry of slot `src` goes to slot `dst`. */
  function WithKey(s: Store, p: int, dst: int, src: int): Store
    requires 0 <= p < |s.pg| && 0 <= dst < |s.pg[p].slots| && 0 <= src < |s.pg[p].slots|
  {
    WithSlot(s, p, dst, Slot(s.pg[p].slots[dst].child, s.pg[p].slots[src].e))
  }

  /** The child field of slot `src` goes to slot `dst`. */
  function WithChild(s: Store, p: int, dst: int, src: int): Store
    requires 0 <= p < |s.pg| && 0 <= dst < |s.pg[p].slots| && 0 <= src < |s.pg[p].slots|
  {
    WithSlot(s, p, dst, Slot(s.pg[p].slots[src].child, s.pg[p].slots[dst].e))
  }

  /** copy_key_and_right: entry and right child of slot `src` go to slot `dst`. */
  function WithKeyRight(s: Store, p: int, dst: int, src: int): Store
    requires 0 <= p < |s.pg| && 0 <= dst && dst + 1 < |s.pg[p].slots| && 0 <= src && src + 1 < |s.pg[p].slots|
  {
    WithChild(WithKey(s, p, dst, src), p, dst + 1, src + 1)
  }

  /** `t` differs from `s` at most in the slots of page p and in places. */
  ghost predicate SlotsOnly(s: Store, t: Store, p: int) {
    && 0 <= p < |s.pg| == |t.pg| && |t.pg[p].slots| == |s.pg[p].slots| == INDEXCOUNT + 1
    && t.pg == s.pg[p := s.pg[p].(slots := t.pg[p].slots)]
  }

  // ---------- sliding a leaf ----------

  ghost predicate LeafSlideDone(s: Store, t: Store, p: int, to: int, lo: int, hi: int, a: int, b: int) {
    && SlotsOnly(s, t, p) && s.pg[p].Framed() && t.par == s.par && t.pp == s.pp
    && 0 <= to && to + s.pg[p].Size() <= INDEXCOUNT && s.pg[p].l <= lo <= hi <= s.pg[p].r
    && s.pg[p].l <= a && b <= s.pg[p].r
    && ChildFree(s.pg[p]) && ChildFree(t.pg[p])
    && (forall j {:trigger t.pg[p].slots[j]} | lo - s.pg[p].l + to <= j < hi - s.pg[p].l + to ::
          t.pg[p].slots[j].e == s.pg[p].slots[j - to + s.pg[p].l].e)
    && (forall j {:trigger t.pg[p].slots[j]} | a <= j < b :: t.pg[p].slots[j].e == s.pg[p].slots[j].e)
  }

  lemma LeafDownStep(s: Store, t: Store, p: int, to: int, k: int)
    requires 0 <= p < |s.pg| && LeafSlideDone(s, t, p, to, s.pg[p].l, k, k, s.pg[p].r)
    requires to <= s.pg[p].l && k < s.pg[p].r
    ensures LeafSlideDone(s, WithKey(t, p, k - s.pg[p].l + to, k), p, to, s.pg[p].l, k + 1, k + 1, s.pg[p].r)
  {
  }

  lemma LeafUpStep(s: Store, t: Store, p: int, to: int, k: int)
    requires 0 <= p < |s.pg| && LeafSlideDone(s, t, p, to, k, s.pg[p].r, s.pg[p].l, k)
    requires to >= s.pg[p].l && s.pg[p].l < k
    ensures LeafSlideDone(s, WithKey(t, p, k - 1 - s.pg[p].l + to, k - 1), p, to, k - 1, s.pg[p].r, s.pg[p].l, k - 1)
  {
  }

  lemma LeafSlideEnd(s: Store, t: Store, p: int, to: int, a: int)
    requires 0 <= p < |s.pg| == |s.par| == |s.pp| && LeafSlideDone(s, t, p, to, s.pg[p].l, s.pg[p].r, a, a)
    ensures var w := WithBounds(t, p, to, to + s.pg[p].Size()); Slid(s, w, p, w.pg[p], to)
  {
  }

  // ---------- sliding up ----------

  /** Entries k .. r and the children behind them have moved up by `d` slots. */
  ghost predicate SlideUpDone(s: Store, t: Store, p: int, d: int, k: int) {
    && LinkedBut(s, p, -1) && 0 < d && s.pg[p].r + d <= INDEXCOUNT && s.pg[p].l <= k <= s.pg[p].r
    && SlotsOnly(s, t, p)
    && (forall j {:trigger t.pg[p].slots[j]} | k + d <= j < s.pg[p].r + d ::
       t.pg[p].slots[j].e == s.pg[p].slots[j - d].e)
    && (forall j {:trigger t.pg[p].slots[j]} | k + d < j <= s.pg[p].r + d ::
       t.pg[p].slots[j].child == s.pg[p].slots[j - d].child)
    && (forall j {:trigger t.pg[p].slots[j]} | s.pg[p].l <= j < k :: t.pg[p].slots[j].e == s.pg[p].slots[j].e)
    && (forall j {:trigger t.pg[p].slots[j]} | s.pg[p].l <= j <= k :: t.pg[p].slots[j].child == s.pg[p].slots[j].child)
    && PlacesShifted(s, t, p, k + 1, s.pg[p].r, d)
  }

  lemma SlideUpStart(s: Store, p: int, d: int)
    requires LinkedBut(s, p, -1) && 0 < d && s.pg[p].r + d <= INDEXCOUNT
    ensures SlideUpDone(s, s, p, d, s.pg[p].r)
  {
  }

  lemma SlideUpStep(s: Store, t: Store, p: int, d: int, k: int) returns (c: nat)
    requires SlideUpDone(s, t, p, d, k) && s.pg[p].l < k
    ensures c == Kid(s, p, k) && 0 < c < |s.pg|
    ensures var u := WithKeyRight(t, p, k - 1 + d, k - 1);
            u.pg[p].slots[k + d].child == c && u.pp[c] == k && SlideUpDone(s, WithPlace(u, c, k + d), p, d, k - 1)
  {
    c := Kid(s, p, k);
    var u := WithKeyRight(t, p, k - 1 + d, k - 1);
    PlaceMoves(s, t, u, p, -1, k + 1, s.pg[p].r, d, k);
    hide PlacesShifted, IsKid;
  }

  lemma SlideUpEnd(s: Store, t: Store, p: int, d: int) returns (c: nat)
    requires 0 <= p < |s.pg| && SlideUpDone(s, t, p, d, s.pg[p].l) && !ChildFree(s.pg[p])
    ensures c == Kid(s, p, s.pg[p].l) && 0 < c < |s.pg|
    ensures var l := s.pg[p].l;
            var u := WithChild(t, p, l + d, l);
            var w := WithBounds(WithPlace(u, c, l + d), p, l + d, s.pg[p].r + d);
            u.pg[p].slots[l + d].child == c && u.pp[c] == l && Slid(s, w, p, w.pg[p], l + d)
  {
    c := Kid(s, p, s.pg[p].l);
  }

  // ---------- opening a slot in an inner page ----------

  /** The part behind `tail` has moved one slot up. */
  ghost predicate OpenRightDone(s: Store, t: Store, p: int, pos: int, tail: int) {
    && LinkedBut(s, p, pos) && s.pg[p].l <= pos <= tail <= s.pg[p].r < INDEXCOUNT
    && SlotsOnly(s, t, p)
    && (forall j {:trigger t.pg[p].slots[j]} | tail < j <= s.pg[p].r :: t.pg[p].slots[j].e == s.pg[p].slots[j - 1].e)
    && (forall j {:trigger t.pg[p].slots[j]} | tail + 1 < j <= s.pg[p].r + 1 ::
       t.pg[p].slots[j].child == s.pg[p].slots[j - 1].child)
    && (forall j {:trigger t.pg[p].slots[j]} | s.pg[p].l <= j < tail :: t.pg[p].slots[j].e == s.pg[p].slots[j].e)
    && (forall j {:trigger t.pg[p].slots[j]} | s.pg[p].l <= j <= tail ::
       t.pg[p].slots[j].child == s.pg[p].slots[j].child)
    && PlacesShifted(s, t, p, tail + 1, s.pg[p].r, 1)
  }

  lemma OpenRightStart(s: Store, p: int, pos: int)
    requires LinkedBut(s, p, pos) && s.pg[p].l <= pos <= s.pg[p].r < INDEXCOUNT
    ensures OpenRightDone(s, s, p, pos, s.pg[p].r)
  {
  }

  lemma OpenRightStep(s: Store, t: Store, p: int, pos: int, tail: int) returns (c: nat)
    requires OpenRightDone(s, t, p, pos, tail) && pos < tail
    ensures c == Kid(s, p, tail) && 0 < c < |s.pg| && t.pp[c] == tail
    ensures var u := WithKeyRight(t, p, tail, tail - 1);
            u.pg[p].slots[tail + 1].child == c && u.pp[c] == tail
                && OpenRightDone(s, WithPlace(u, c, tail + 1), p, pos, tail - 1)
  {
    c := Kid(s, p, tail);
    var u := WithKeyRight(t, p, tail, tail - 1);
    PlaceMoves(s, t, u, p, pos, tail + 1, s.pg[p].r, 1, tail);
    hide PlacesShifted, IsKid;
  }

  /** The part before `bgn + 1` has moved one slot down. */
  ghost predicate OpenLeftDone(s: Store, t: Store, p: int, pos: int, bgn: int) {
    && LinkedBut(s, p, pos) && 0 < s.pg[p].l && s.pg[p].l - 1 <= bgn < pos <= s.pg[p].r
    && SlotsOnly(s, t, p)
    && (forall j {:trigger t.pg[p].slots[j]} | s.pg[p].l - 1 <= j < bgn :: t.pg[p].slots[j] == s.pg[p].slots[j + 1])
    && (forall j {:trigger t.pg[p].slots[j]} | bgn < j <= s.pg[p].r :: t.pg[p].slots[j] == s.pg[p].slots[j])
    && PlacesShifted(s, t, p, s.pg[p].l, bgn, -1)
  }

  lemma OpenLeftStart(s: Store, p: int, pos: int)
    requires LinkedBut(s, p, pos) && 0 < s.pg[p].l <= pos <= s.pg[p].r
    ensures OpenLeftDone(s, s, p, pos, s.pg[p].l - 1)
  {
  }

  lemma OpenLeftStep(s: Store, t: Store, p: int, pos: int, bgn: int) returns (c: nat)
    requires OpenLeftDone(s, t, p, pos, bgn) && bgn < pos - 1
    ensures c == Kid(s, p, bgn + 1) && 0 < c < |s.pg| && t.pp[c] == bgn + 1 && t.pg[p].slots[bgn + 1].child == c
    ensures var u := WithSlot(t, p, bgn, t.pg[p].slots[bgn + 1]);
            u.pg[p].slots[bgn].child == c && u.pp[c] == bgn + 1
                && OpenLeftDone(s, WithPlace(u, c, bgn), p, pos, bgn + 1)
  {
    c := Kid(s, p, bgn + 1);
  }

  /** The new entry and its two children are written and both children learn their place. */
  ghost function Published(t: Store, p: int, pos: int, e: Entry, a: nat, b: nat): Store
    requires 0 <= p < |t.pg| == |t.par| == |t.pp| && |t.pg[p].slots| == INDEXCOUNT + 1 && 0 <= pos < INDEXCOUNT
    requires a < |t.pg| && b < |t.pg|
  {
    var u := WithSlot(t, p, pos, Slot(a, e));
    var w := WithSlot(u, p, pos + 1, Slot(b, u.pg[p].slots[pos + 1].e));
    WithParent(WithParent(w, a, p, pos), b, p, pos + 1)
  }

  lemma OpenRightEnd(s: Store, t: Store, p: int, pos: int, e: Entry, a: nat, b: nat)
    requires OpenRightDone(s, t, p, pos, pos) && 0 < a < |s.pp| && 0 < b < |s.pp| && a != b && a != p && b != p
    ensures var w := Published(WithBounds(t, p, s.pg[p].l, s.pg[p].r + 1), p, pos, e, a, b);
            SlotInserted(s, w, p, w.pg[p], pos, 0, e, a, b)
  {
  }

  lemma OpenLeftEnd(s: Store, t: Store, p: int, pos: int, e: Entry, a: nat, b: nat)
    requires OpenLeftDone(s, t, p, pos, pos - 1) && 0 < a < |s.pp| && 0 < b < |s.pp| && a != b && a != p && b != p
    ensures var w := Published(WithBounds(t, p, s.pg[p].l - 1, s.pg[p].r), p, pos - 1, e, a, b);
            SlotInserted(s, w, p, w.pg[p], pos, -1, e, a, b)
  {
  }

  // ---------- closing a slot of an inner page ----------

  /** The part from ph + 1 to k has moved one slot down. */
  ghost predicate CloseDownDone(s: Store, t: Store, p: int, ph: int, k: int) {
    && LinkedBut(s, p, ph + 1) && s.pg[p].l <= ph <= k < s.pg[p].r
    && SlotsOnly(s, t, p) && MovedDown(s.pg[p], t.pg[p].slots, ph, k) && PlacesShifted(s, t, p, ph + 2, k + 1, -1)
  }

  ghost predicate MovedDown(c: Content, slots: seq<Slot>, ph: int, k: int) {
    && |slots| == |c.slots| && 0 <= c.l <= ph <= k < c.r < |slots|
    && (forall j {:trigger slots[j]} | ph <= j < k :: slots[j].e == c.slots[j + 1].e)
    && (forall j {:trigger slots[j]} | ph < j <= k :: slots[j].child == c.slots[j + 1].child)
    && (forall j {:trigger slots[j]} | c.l <= j < c.r && !(ph <= j < k) :: slots[j].e == c.slots[j].e)
    && (forall j {:trigger slots[j]} | c.l <= j <= c.r && !(ph < j <= k) :: slots[j].child == c.slots[j].child)
  }

  lemma MovesDown(c: Content, slots: seq<Slot>, ph: int, k: int, now: seq<Slot>)
    requires MovedDown(c, slots, ph, k) && k < c.r - 1 && |now| == |slots|
    requires forall j {:trigger now[j]} | 0 <= j < |now| ::
               now[j] == Slot(slots[if j == k + 1 then k + 2 else j].child, slots[if j == k then k + 1 else j].e)
    ensures MovedDown(c, now, ph, k + 1) && now[k + 1].child == c.slots[k + 2].child
  {
  }

  lemma CloseDownStart(s: Store, p: int, ph: int)
    requires LinkedBut(s, p, ph + 1) && s.pg[p].l <= ph < s.pg[p].r
    ensures CloseDownDone(s, s, p, ph, ph)
  {
  }

  lemma CloseDownStep(s: Store, t: Store, p: int, ph: int, k: int) returns (c: nat)
    requires CloseDownDone(s, t, p, ph, k) && k < s.pg[p].r - 1
    ensures c == Kid(s, p, k + 2) && 0 < c < |s.pg| && t.pp[c] == k + 2
    ensures var u := WithKeyRight(t, p, k, k + 1);
            u.pg[p].slots[k + 1].child == c && u.pp[c] == k + 2
                && CloseDownDone(s, WithPlace(u, c, k + 1), p, ph, k + 1)
  {
    c := Kid(s, p, k + 2);
    var u := WithKeyRight(t, p, k, k + 1);
    PlaceMoves(s, t, u, p, ph + 1, ph + 2, k + 1, -1, k + 2);
    MovesDown(s.pg[p], t.pg[p].slots, ph, k, u.pg[p].slots);
    hide PlacesShifted, IsKid, MovedDown;
  }

  /** What remains of page p without entry `ph` and the child behind it. */
  ghost predicate SlotDropped(s: Store, t: Store, p: int, n: Content, ph: int, d: int) {
    && OnlyPage(s, t, p, n) && ContentDropped(s.pg[p], n, ph, d)
    && t.par == s.par && |t.pp| == |s.pp|
    && (forall c {:trigger t.pp[c]} | 0 <= c < |s.pp| ::
          t.pp[c] == if IsKid(s, p, c) && s.pp[c] <= ph then s.pp[c] + d
                     else if IsKid(s, p, c) && s.pp[c] > ph + 1 then s.pp[c] - 1 + d
                     else s.pp[c])
  }

  lemma CloseDownEnd(s: Store, t: Store, p: int, ph: int)
    requires 0 <= p < |s.pg| && CloseDownDone(s, t, p, ph, s.pg[p].r - 1)
    ensures var w := WithBounds(t, p, s.pg[p].l, s.pg[p].r - 1); SlotDropped(s, w, p, w.pg[p], ph, 0)
  {
  }

  ghost predicate MovedUp(c: Content, slots: seq<Slot>, ph: int, k: int) {
    && |slots| == |c.slots| && 0 <= c.l <= k <= ph < c.r < |slots|
    && (forall j {:trigger slots[j]} | k < j <= ph :: slots[j].e == c.slots[j - 1].e)
    && (forall j {:trigger slots[j]} | k + 1 < j <= ph + 1 :: slots[j].child == c.slots[j - 1].child)
    && (forall j {:trigger slots[j]} | c.l <= j < c.r && !(k < j <= ph) :: slots[j].e == c.slots[j].e)
    && (forall j {:trigger slots[j]} | c.l <= j <= c.r && !(k + 1 < j <= ph + 1) && j != ph + 1 ::
       slots[j].child == c.slots[j].child)
  }

  lemma MovesUp(c: Content, slots: seq<Slot>, ph: int, k: int, now: seq<Slot>)
    requires MovedUp(c, slots, ph, k) && c.l < k && |now| == |slots|
    requires forall j {:trigger now[j]} | 0 <= j < |now| ::
               now[j] == Slot(slots[if j == k + 1 then k else j].child, slots[if j == k then k - 1 else j].e)
    ensures MovedUp(c, now, ph, k - 1) && now[k + 1].child == c.slots[k].child
  {
  }

  /** The part from k + 1 to ph has moved one slot up. */
  ghost predicate CloseUpDone(s: Store, t: Store, p: int, ph: int, k: int) {
    && LinkedBut(s, p, ph + 1) && s.pg[p].l <= k <= ph < s.pg[p].r
    && SlotsOnly(s, t, p)
    && MovedUp(s.pg[p], t.pg[p].slots, ph, k) && PlacesShifted(s, t, p, k + 1, ph, 1)
  }

  lemma CloseUpStart(s: Store, p: int, ph: int)
    requires LinkedBut(s, p, ph + 1) && s.pg[p].l <= ph < s.pg[p].r
    ensures CloseUpDone(s, s, p, ph, ph)
  {
  }

  lemma CloseUpStep(s: Store, t: Store, p: int, ph: int, k: int) returns (c: nat)
    requires CloseUpDone(s, t, p, ph, k) && s.pg[p].l < k
    ensures c == Kid(s, p, k) && 0 < c < |s.pg| && t.pp[c] == k
    ensures var u := WithKeyRight(t, p, k, k - 1);
            u.pg[p].slots[k + 1].child == c && u.pp[c] == k && CloseUpDone(s, WithPlace(u, c, k + 1), p, ph, k - 1)
  {
    c := Kid(s, p, k);
    var u := WithKeyRight(t, p, k, k - 1);
    PlaceMoves(s, t, u, p, ph + 1, k + 1, ph, 1, k);
    MovesUp(s.pg[p], t.pg[p].slots, ph, k, u.pg[p].slots);
    hide PlacesShifted, IsKid, MovedUp;
  }

  lemma CloseUpEnd(s: Store, t: Store, p: int, ph: int) returns (c: nat)
    requires 0 <= p < |s.pg| && CloseUpDone(s, t, p, ph, s.pg[p].l)
    ensures c == Kid(s, p, s.pg[p].l) && 0 < c < |s.pg| && t.pg[p].slots[s.pg[p].l].child == c && t.pp[c] == s.pg[p].l
    ensures var u := WithChild(t, p, s.pg[p].l + 1, s.pg[p].l);
            var w := WithBounds(WithPlace(u, c, s.pg[p].l + 1), p, s.pg[p].l + 1, s.pg[p].r);
            u.pg[p].slots[s.pg[p].l + 1].child == c && u.pp[c] == s.pg[p].l && SlotDropped(s, w, p, w.pg[p], ph, 1)
  {
    c := Kid(s, p, s.pg[p].l);
  }

  // ---------- opening and closing a slot of a leaf ----------

  ghost predicate LeafOnly(s: Store, t: Store, p: int) {
    && SlotsOnly(s, t, p) && s.pg[p].Framed() && t.par == s.par && t.pp == s.pp && ChildFree(s.pg[p])
    && ChildFree(t.pg[p])
  }

  ghost predicate LeafOpenRightDone(s: Store, t: Store, p: int, pos: int, tail: int) {
    && LeafOnly(s, t, p) && s.pg[p].l <= pos <= tail <= s.pg[p].r < INDEXCOUNT
    && (forall j {:trigger t.pg[p].slots[j]} | tail < j <= s.pg[p].r :: t.pg[p].slots[j].e == s.pg[p].slots[j - 1].e)
    && (forall j {:trigger t.pg[p].slots[j]} | s.pg[p].l <= j < tail :: t.pg[p].slots[j].e == s.pg[p].slots[j].e)
  }

  lemma LeafOpenRightStep(s: Store, t: Store, p: int, pos: int, tail: int)
    requires LeafOpenRightDone(s, t, p, pos, tail) && pos < tail
    ensures LeafOpenRightDone(s, WithKey(t, p, tail, tail - 1), p, pos, tail - 1)
  {
  }

  ghost predicate LeafOpenLeftDone(s: Store, t: Store, p: int, pos: int, bgn: int) {
    && LeafOnly(s, t, p) && 0 < s.pg[p].l && s.pg[p].l - 1 <= bgn < pos <= s.pg[p].r
    && (forall j {:trigger t.pg[p].slots[j]} | s.pg[p].l - 1 <= j < bgn :: t.pg[p].slots[j].e == s.pg[p].slots[j + 1].e)
    && (forall j {:trigger t.pg[p].slots[j]} | bgn < j < s.pg[p].r :: t.pg[p].slots[j].e == s.pg[p].slots[j].e)
  }

  lemma LeafOpenLeftStep(s: Store, t: Store, p: int, pos: int, bgn: int)
    requires LeafOpenLeftDone(s, t, p, pos, bgn) && bgn < pos - 1
    ensures LeafOpenLeftDone(s, WithKey(t, p, bgn, bgn + 1), p, pos, bgn + 1)
  {
  }

  /** The new entry is written and the children beside it are zero. */
  ghost function LeafWritten(t: Store, p: int, pos: int, e: Entry): Store
    requires 0 <= p < |t.pg| && |t.pg[p].slots| == INDEXCOUNT + 1 && 0 <= pos < INDEXCOUNT
  {
    var u := WithSlot(t, p, pos, Slot(0, e));
    WithSlot(u, p, pos + 1, Slot(0, u.pg[p].slots[pos + 1].e))
  }

  lemma LeafOpenEnd(s: Store, t: Store, p: int, pos: int, d: int, e: Entry)
    requires if d == 0 then LeafOpenRightDone(s, t, p, pos, pos) else d == -1 && LeafOpenLeftDone(s, t, p, pos, pos - 1)
    ensures var w := LeafWritten(WithBounds(t, p, s.pg[p].l + d, s.pg[p].r + d + 1), p, pos + d, e);
            w.pg[p].Framed() && EntryAdded(s.pg[p], w.pg[p], pos, d, e) && w == s.(pg := s.pg[p := w.pg[p]])
  {
  }

  ghost predicate LeafCloseDone(s: Store, t: Store, p: int, pos: int, k: int, d: int) {
    && LeafOnly(s, t, p) && s.pg[p].l <= pos < s.pg[p].r && 0 <= d <= 1
    && if d == 0 then
         && pos <= k < s.pg[p].r
         && (forall j {:trigger t.pg[p].slots[j]} | pos <= j < k :: t.pg[p].slots[j].e == s.pg[p].slots[j + 1].e)
         && (forall j {:trigger t.pg[p].slots[j]} | s.pg[p].l <= j < s.pg[p].r && !(pos <= j < k) ::
               t.pg[p].slots[j].e == s.pg[p].slots[j].e)
       else
         && s.pg[p].l <= k <= pos
         && (forall j {:trigger t.pg[p].slots[j]} | k < j <= pos :: t.pg[p].slots[j].e == s.pg[p].slots[j - 1].e)
         && (forall j {:trigger t.pg[p].slots[j]} | s.pg[p].l <= j < s.pg[p].r && !(k < j <= pos) ::
               t.pg[p].slots[j].e == s.pg[p].slots[j].e)
  }

  lemma LeafCloseStep(s: Store, t: Store, p: int, pos: int, k: int, d: int)
    requires LeafCloseDone(s, t, p, pos, k, d)
    ensures d == 0 && k < s.pg[p].r - 1 ==> LeafCloseDone(s, WithKey(t, p, k, k + 1), p, pos, k + 1, d)
    ensures d == 1 && s.pg[p].l < k ==> LeafCloseDone(s, WithKey(t, p, k, k - 1), p, pos, k - 1, d)
  {
  }

  lemma LeafCloseEnd(s: Store, t: Store, p: int, pos: int, d: int)
    requires 0 <= p < |s.pg| && LeafCloseDone(s, t, p, pos, if d == 0 then s.pg[p].r - 1 else s.pg[p].l, d)
    ensures var w := WithBounds(t, p, s.pg[p].l + d, s.pg[p].r - 1 + d);
            w.pg[p].Framed() && EntryRemoved(s.pg[p], w.pg[p], pos, d) && w == s.(pg := s.pg[p := w.pg[p]])
  {
  }

  // ---------- block copies between pages ----------

  /** memcpy of `n` slots and the child field behind them from page q, slot src, to page p, slot dst. */
  ghost function WithBlock(s: Store, p: int, dst: int, q: int, src: int, n: int): Store
    requires 0 <= p < |s.pg| && 0 <= q < |s.pg| && |s.pg[p].slots| == |s.pg[q].slots| == INDEXCOUNT + 1
    requires 0 <= n && 0 <= dst && dst + n <= INDEXCOUNT && 0 <= src && src + n <= INDEXCOUNT
  {
    var c := s.pg[p].slots;
    var o := s.pg[q].slots;
    s.(pg := s.pg[p := s.pg[p].(slots :=
      c[..dst] + o[src..src + n] + [Slot(o[src + n].child, c[dst + n].e)] + c[dst + n + 1..])])
  }

  /** The first k + 1 children of the right half hang below page b. */
  ghost predicate AdoptDone(s: Store, t: Store, p: int, b: int, lo: int, hi: int, d: int) {
    && |t.par| == |s.par| == |s.pp| == |t.pp|
    && (forall c {:trigger t.pp[c]} {:trigger t.par[c]} | 0 <= c < |s.pp| ::
          if IsKid(s, p, c) && lo <= s.pp[c] < hi
          then t.par[c] == b && t.pp[c] == s.pp[c] + d
          else t.par[c] == s.par[c] && t.pp[c] == s.pp[c])
  }

  lemma AdoptStep(s: Store, t: Store, p: int, b: int, lo: int, hi: int, d: int)
    requires LinkedBut(s, p, -1) && s.pg[p].l <= lo <= hi <= s.pg[p].r && AdoptDone(s, t, p, b, lo, hi, d)
    ensures 0 < Kid(s, p, hi) < |s.pg|
    ensures AdoptDone(s, WithParent(t, Kid(s, p, hi), b, hi + d), p, b, lo, hi + 1, d)
  {
    assert IsKid(s, p, Kid(s, p, hi));
  }

  /** The contents after a cut. */
  ghost function CutPages(s: Store, p: int, b: int): Store
    requires 0 <= p < |s.pg| && 0 <= b < |s.pg| && p != b && |s.pg[p].slots| == |s.pg[b].slots| == INDEXCOUNT + 1
  {
    WithBlock(WithBounds(WithBounds(s, b, 0, INDEXMINR), p, s.pg[p].l, INDEXMINL), b, 0, p, INDEXMINL + 1, INDEXMINR)
  }

  lemma CutPagesAre(s: Store, p: int, b: int, t: Store)
    requires 0 < p < |s.pg| && 0 < b < |s.pg| && p != b && s.pg[p].Framed() && s.pg[b].Framed()
    requires s.pg[p].l == 0 && s.pg[p].r == INDEXCOUNT && ChildFree(s.pg[b])
    requires t == CutPages(s, p, b)
    ensures |t.pg| == |s.pg| && t.par == s.par && t.pp == s.pp && t.pg == s.pg[p := t.pg[p]][b := t.pg[b]]
    ensures t.pg[p].Framed() && t.pg[b].Framed() && ContentSplit(s.pg[p], t.pg[p], t.pg[b])
  {
  }

  lemma CutEnd(s: Store, t: Store, u: Store, p: int, b: int)
    requires 0 < p < |s.pg| == |s.par| == |s.pp| && 0 < b < |s.pg| && p != b && s.pg[p].Framed() && s.pg[b].Framed()
    requires s.pg[p].l == 0 && s.pg[p].r == INDEXCOUNT && ChildFree(s.pg[b])
    requires t == CutPages(s, p, b) && u.pg == t.pg
    requires (ChildFree(s.pg[p]) && u == t) || AdoptDone(s, u, p, b, INDEXMINL + 1, INDEXCOUNT + 1, -INDEXMINL - 1)
    ensures Cut(s, u, p, b, u.pg[p], u.pg[b])
  {
    CutPagesAre(s, p, b, t);
    hide CutPages, ContentSplit;
  }

  // ---------- joining two pages ----------

  /** The contents after a join: `e` and the used part of page b are appended to page a. */
  ghost function JoinPages(s: Store, a: int, b: int, e: Entry): Store
    requires 0 <= a < |s.pg| && 0 <= b < |s.pg| && a != b && s.pg[a].Framed() && s.pg[b].Framed()
    requires s.pg[a].r + 1 + s.pg[b].Size() <= INDEXCOUNT
  {
    var r := s.pg[a].r;
    var u := WithSlot(s, a, r, Slot(s.pg[a].slots[r].child, e));
    WithBounds(WithBlock(u, a, r + 1, b, s.pg[b].l, s.pg[b].Size()), a, s.pg[a].l, r + 1 + s.pg[b].Size())
  }

  ghost predicate PagesJoined(s: Store, t: Store, a: int, b: int, e: Entry) {
    && 0 < a < |s.pg| == |s.par| == |s.pp| && 0 < b < |s.pg| && a != b && s.pg[a].Framed() && s.pg[b].Framed()
    && |t.pg| == |s.pg| && t.pg[a].Framed() && t.pg == s.pg[a := t.pg[a]]
    && ContentJoined(s.pg[a], s.pg[b], t.pg[a], e)
    && AdoptDone(s, t, b, a, s.pg[b].l, s.pg[b].r + 1, s.pg[a].r + 1 - s.pg[b].l)
  }

  /** The slots of the joined page, one by one. */
  lemma JoinedSlot(u: seq<Slot>, v: seq<Slot>, x: Slot, a: nat, k: nat, w: seq<Slot>, j: nat)
    requires a < k < |u| && |v| == k - a - 1 && w == u[..a + 1] + v + [x] + u[k + 1..] && j < |w|
    ensures |w| == |u|
    ensures w[j] == if j <= a then u[j] else if j < k then v[j - a - 1] else if j == k then x else u[j]
  {
  }

  lemma JoinContent(c: Content, o: Content, e: Entry, n: Content)
    requires c.Framed() && o.Framed() && c.r + 1 + o.Size() <= INDEXCOUNT
    requires n.l == c.l && n.r == c.r + 1 + o.Size()
    requires var u, k := c.slots[c.r := Slot(c.slots[c.r].child, e)], c.r + 1 + o.Size();
             n.slots == u[..c.r + 1] + o.slots[o.l..o.r] + [Slot(o.slots[o.r].child, u[k].e)] + u[k + 1..]
    ensures n.Framed() && ContentJoined(c, o, n, e)
  {
    var u, k, v := c.slots[c.r := Slot(c.slots[c.r].child, e)], c.r + 1 + o.Size(), o.slots[o.l..o.r];
    var x, w := Slot(o.slots[o.r].child, u[k].e), n.slots;
    forall j: nat | j < |w|
      ensures |w| == |u|
      ensures w[j] == if j <= c.r then u[j] else if j < k then v[j - c.r - 1] else if j == k then x else u[j]
    {
      JoinedSlot(u, v, x, c.r, k, w, j);
    }
    JoinedSlot(u, v, x, c.r, k, w, 0);
    JoinedIs(c, o, n, e);
  }

  lemma JoinedIs(c: Content, o: Content, n: Content, e: Entry)
    requires c.Framed() && o.Framed() && c.r + 1 + o.Size() <= INDEXCOUNT
    requires n.l == c.l && n.r == c.r + 1 + o.Size() && |n.slots| == |c.slots|
    requires forall j: nat {:trigger n.slots[j]} | j < |n.slots| ::
               n.slots[j] == if j < c.r then c.slots[j]
                             else if j == c.r then Slot(c.slots[j].child, e)
                             else if j < n.r then o.slots[o.l + j - c.r - 1]
                             else if j == n.r then Slot(o.slots[o.r].child, c.slots[j].e)
                             else c.slots[j]
    ensures n.Framed() && ContentJoined(c, o, n, e)
  {
  }

  lemma JoinPagesAre(s: Store, a: int, b: int, e: Entry, t: Store)
    requires 0 < a < |s.pg| && 0 < b < |s.pg| && a != b && s.pg[a].Framed() && s.pg[b].Framed()
    requires s.pg[a].r + 1 + s.pg[b].Size() <= INDEXCOUNT
    requires t == JoinPages(s, a, b, e)
    ensures |t.pg| == |s.pg| && t.par == s.par && t.pp == s.pp && t.pg == s.pg[a := t.pg[a]] && t.pg[a].Framed()
    ensures ContentJoined(s.pg[a], s.pg[b], t.pg[a], e)
  {
    hide ContentJoined;
    JoinContent(s.pg[a], s.pg[b], e, t.pg[a]);
  }

  lemma JoinEnd(s: Store, t: Store, u: Store, a: int, b: int, e: Entry)
    requires 0 < a < |s.pg| == |s.par| == |s.pp| && 0 < b < |s.pg| && a != b && s.pg[a].Framed() && s.pg[b].Framed()
    requires s.pg[a].r + 1 + s.pg[b].Size() <= INDEXCOUNT
    requires t == JoinPages(s, a, b, e) && u.pg == t.pg
    requires (ChildFree(s.pg[b]) && u == t)
             || AdoptDone(s, u, b, a, s.pg[b].l, s.pg[b].r + 1, s.pg[a].r + 1 - s.pg[b].l)
    ensures PagesJoined(s, u, a, b, e)
  {
    JoinPagesAre(s, a, b, e, t);
    hide JoinPages, ContentJoined;
  }

  /** A join followed by dropping the separator and the joined page from the parent is one merge. */
  lemma MergeEnd(s: Store, t: Store, u: Store, g: View, v: View, root: int, q: int, ph: int, a: int, b: int, d: int)
    requires Lengths(s, g) && 0 < q < |s.pg| && q != a && q != b && s.pg[q].Framed()
    requires s.pg[q].l <= ph < s.pg[q].r && a == Kid(s, q, ph) && b == Kid(s, q, ph + 1)
    requires |u.pg| == |s.pg| && PagesJoined(s, t, a, b, s.pg[q].slots[ph].e) && SlotDropped(t, u, q, u.pg[q], ph, d)
    requires IsKid(s, q, b) && s.pp[b] == ph + 1
    requires v == g.(h := g.h[b := -1], en := g.en[a := g.en[b]])
    ensures Merging(s, u, g, v, root, q, ph, a, b, u.pg[a], u.pg[q], d).Step()
  {
    forall c | 0 <= c < |s.pp| ensures IsKid(t, q, c) <==> IsKid(s, q, c) {}
  }

  // ---------- moving one entry between neighbours ----------

  /** The three pages of a rotation can be written. */
  ghost predicate Neighbours(s: Store, q: int, ph: int, a: int, b: int) {
    && 0 < a < |s.pg| == |s.par| == |s.pp| && 0 < b < |s.pg| && 0 < q < |s.pg| && a != b && a != q && b != q
    && s.pg[a].Framed() && s.pg[b].Framed() && s.pg[q].Framed()
    && s.pg[q].l <= ph < s.pg[q].r && a == Kid(s, q, ph) && b == Kid(s, q, ph + 1)
  }

  /** What r_shrink_leaf writes: the separator goes to the end of `a`, the first entry of `b` up. */
  ghost function RotateLeftLeaf(s: Store, q: int, ph: int, a: int, b: int): Store
    requires Neighbours(s, q, ph, a, b) && s.pg[a].r < INDEXCOUNT
  {
    var r, l := s.pg[a].r, s.pg[b].l;
    var u := WithSlot(s, a, r, Slot(s.pg[a].slots[r].child, s.pg[q].slots[ph].e));
    var w := WithSlot(u, q, ph, Slot(s.pg[q].slots[ph].child, s.pg[b].slots[l].e));
    WithBounds(WithBounds(w, a, s.pg[a].l, r + 1), b, l + 1, s.pg[b].r)
  }

  /** r_shrink_internal also hands over the first child of `b`. */
  ghost function RotateLeftInner(s: Store, q: int, ph: int, a: int, b: int): Store
    requires Neighbours(s, q, ph, a, b) && s.pg[a].r < INDEXCOUNT && Kid(s, b, s.pg[b].l) < |s.pg|
  {
    var r, l := s.pg[a].r, s.pg[b].l;
    var u := WithSlot(s, a, r, Slot(s.pg[a].slots[r].child, s.pg[q].slots[ph].e));
    var w := WithSlot(u, q, ph, Slot(s.pg[q].slots[ph].child, s.pg[b].slots[l].e));
    var x := WithSlot(w, a, r + 1, Slot(s.pg[b].slots[l].child, s.pg[a].slots[r + 1].e));
    WithBounds(WithBounds(WithParent(x, s.pg[b].slots[l].child, a, r + 1), a, s.pg[a].l, r + 1), b, l + 1, s.pg[b].r)
  }

  lemma RotateLeftEnd(s: Store, g: View, root: int, q: int, ph: int, a: int, b: int, t: Store, m: int)
    requires Lengths(s, g) && Neighbours(s, q, ph, a, b) && s.pg[a].r < INDEXCOUNT && s.pg[b].l < s.pg[b].r
    requires Kid(s, b, s.pg[b].l) < |s.pg|
    requires ChildFree(s.pg[a]) && Kid(s, b, s.pg[b].l) == 0 ==> t == RotateLeftLeaf(s, q, ph, a, b)
    requires !(ChildFree(s.pg[a]) && Kid(s, b, s.pg[b].l) == 0) ==>
             Kid(s, b, s.pg[b].l) > 0 && t == RotateLeftInner(s, q, ph, a, b)
    requires m == (if Kid(s, b, s.pg[b].l) == 0 then g.en[a] + 1 else g.en[Kid(s, b, s.pg[b].l)])
    ensures Rotation(s, t, g, g.(en := g.en[a := m], st := g.st[b := m + 1]), root, q, ph, a, b,
                     t.pg[a], t.pg[b], t.pg[q], Kid(s, b, s.pg[b].l), m).ToLeftStep()
  {
  }

  /** What l_shrink_leaf writes: the separator goes to the front of `b`, the last entry of `a` up. */
  ghost function RotateRightLeaf(s: Store, q: int, ph: int, a: int, b: int): Store
    requires Neighbours(s, q, ph, a, b) && 0 < s.pg[b].l && s.pg[a].l < s.pg[a].r
  {
    var r, l := s.pg[a].r - 1, s.pg[b].l - 1;
    var u := WithBounds(s, b, l, s.pg[b].r);
    var w := WithSlot(u, b, l, Slot(s.pg[b].slots[l].child, s.pg[q].slots[ph].e));
    var x := WithBounds(w, a, s.pg[a].l, r);
    WithSlot(x, q, ph, Slot(s.pg[q].slots[ph].child, s.pg[a].slots[r].e))
  }

  /** l_shrink_internal also hands over the last child of `a`. */
  ghost function RotateRightInner(s: Store, q: int, ph: int, a: int, b: int): Store
    requires Neighbours(s, q, ph, a, b) && 0 < s.pg[b].l && s.pg[a].l < s.pg[a].r && Kid(s, a, s.pg[a].r) < |s.pg|
  {
    var l, k := s.pg[b].l - 1, s.pg[a].slots[s.pg[a].r].child;
    var x := RotateRightLeaf(s, q, ph, a, b);
    WithParent(WithSlot(x, b, l, Slot(k, s.pg[q].slots[ph].e)), k, b, l)
  }

  lemma RotateRightEnd(s: Store, g: View, root: int, q: int, ph: int, a: int, b: int, t: Store, m: int)
    requires Lengths(s, g) && Neighbours(s, q, ph, a, b) && 0 < s.pg[b].l && s.pg[a].l < s.pg[a].r
    requires Kid(s, a, s.pg[a].r) < |s.pg|
    requires ChildFree(s.pg[b]) && Kid(s, a, s.pg[a].r) == 0 ==> t == RotateRightLeaf(s, q, ph, a, b)
    requires !(ChildFree(s.pg[b]) && Kid(s, a, s.pg[a].r) == 0) ==>
             Kid(s, a, s.pg[a].r) > 0 && t == RotateRightInner(s, q, ph, a, b)
    requires m == (if Kid(s, a, s.pg[a].r) == 0 then g.en[a] - 1 else g.st[Kid(s, a, s.pg[a].r)] - 1)
    ensures Rotation(s, t, g, g.(en := g.en[a := m], st := g.st[b := m + 1]), root, q, ph, a, b,
                     t.pg[a], t.pg[b], t.pg[q], Kid(s, a, s.pg[a].r), m).ToRightStep()
  {
  }

  /** Inner nodes of a tree are linked to their children. */
  lemma InnerLinked(s: Store, g: View, p: int, but: int)
    requires NodeAt(s, g, p) && g.h[p] > 0 && NodeBody(s, g, p)
    ensures LinkedBut(s, p, but) && !ChildFree(s.pg[p]) && Kid(s, p, s.pg[p].l) > 0
  {
    hide SepsOK, Between;
    forall j | s.pg[p].l <= j <= s.pg[p].r
      ensures IsKid(s, p, Kid(s, p, j)) && s.pp[Kid(s, p, j)] == j && Kid(s, p, j) != p
    {
      assert KidOK(s, g, p, j);
    }
  }

  lemma PendingLinked(s: Store, g: View, p: int, pos: int, a: int, b: int)
    requires NodeAt(s, g, p) && PendingKids(s, g, p, pos, a, b)
    ensures LinkedBut(s, p, pos)
  {
    forall j | s.pg[p].l <= j <= s.pg[p].r && j != pos
      ensures IsKid(s, p, Kid(s, p, j)) && s.pp[Kid(s, p, j)] == j && Kid(s, p, j) != p
    {
      assert KidOK(s, g, p, j);
    }
  }

  lemma AdoptStart(s: Store, t: Store, p: int, b: int, lo: int, d: int)
    requires |s.par| == |s.pp| && t.par == s.par && t.pp == s.pp
    ensures AdoptDone(s, t, p, b, lo, lo, d)
  {
  }

  lemma RotateRightLeafIs(s: Store, q: int, ph: int, a: int, b: int, t: Store)
    requires Neighbours(s, q, ph, a, b) && 0 < s.pg[b].l && s.pg[a].l < s.pg[a].r
             && t == RotateRightLeaf(s, q, ph, a, b)
    ensures |t.pg| == |s.pg| && t.pg[b].l == s.pg[b].l - 1 && t.pg[a].r == s.pg[a].r - 1
    ensures |t.pg[a].slots| == INDEXCOUNT + 1 && t.pg[a].slots[s.pg[a].r].child == s.pg[a].slots[s.pg[a].r].child
    ensures |t.pg[b].slots| == INDEXCOUNT + 1 && t.pg[b].slots[s.pg[b].l - 1].e == s.pg[q].slots[ph].e
  {
  }

  // ---------- new pages ----------

  const NoEntry := Entry([], 0, 0, 0)

  function ZeroContent(): (c: Content)
    ensures |c.slots| == INDEXCOUNT + 1 && c.l == 0 && c.r == 0 && ChildFree(c)
  {
    Content(seq(INDEXCOUNT + 1, _ => Slot(0, NoEntry)), 0, 0)
  }

  ghost predicate ZeroAt(s: Store, b: int) {
    && 0 <= b < |s.pg| == |s.par| == |s.pp|
    && s.pg[b] == ZeroContent() && s.par[b] == 0 && s.pp[b] == 0
  }

  /** Page b, if there yet, is zero and outside the tree; every other old page is as it was. */
  ghost predicate PageAllocated(s: Store, g: View, t: Store, v: View, b: int) {
    && Lengths(s, g) && Lengths(t, v) && |s.pg| <= |t.pg| && v.G == g.G && b > 0
    && (b < |g.h| ==> g.h[b] < 0)
    && (b < |t.pg| ==> ZeroAt(t, b))
    && v.h == g.h + seq(|t.pg| - |s.pg|, _ => -1)
    && g.st <= v.st && g.en <= v.en
    && (forall i {:trigger t.pg[i]} {:trigger t.par[i]} {:trigger t.pp[i]} | 0 <= i < |s.pg| && i != b ::
          t.pg[i] == s.pg[i] && t.par[i] == s.par[i] && t.pp[i] == s.pp[i])
  }

  lemma AllocStart(s: Store, g: View, t: Store, b: int)
    requires Lengths(s, g) && b > 0 && (b < |g.h| ==> g.h[b] < 0)
    requires if b < |s.pg| then t == Store(s.pg[b := ZeroContent()], s.par[b := 0], s.pp[b := 0]) else t == s
    ensures PageAllocated(s, g, t, g, b)
  {
    assert g.h == g.h + seq(0, _ => -1);
  }

  lemma AllocStep(s: Store, g: View, t: Store, v: View, b: int)
    requires PageAllocated(s, g, t, v, b) && |t.pg| <= b
    ensures PageAllocated(s, g, Store(t.pg + [ZeroContent()], t.par + [0], t.pp + [0]),
                          v.(h := v.h + [-1], st := v.st + [0], en := v.en + [0]), b)
  {
    assert v.h + [-1] == g.h + seq(|t.pg| + 1 - |s.pg|, _ => -1);
  }

  lemma AllocatedNodes(s: Store, g: View, t: Store, v: View, b: int)
    requires PageAllocated(s, g, t, v, b)
    ensures Lengths(t, v) && forall i {:trigger In(v, i)} {:trigger In(g, i)} :: In(v, i) <==> In(g, i)
  {
  }

  lemma AllocatedIsBlank(s: Store, g: View, t: Store, v: View, b: int)
    requires PageAllocated(s, g, t, v, b) && b < |t.pg|
    ensures Blank(t, v, b) && TreePagesKept(s, g, t, v)
  {
  }
}
