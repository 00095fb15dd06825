/** Whole runs of a table of `znet/common/db.h`: any sequence of requests answers as a finite map does. */
module Session {
  import opened Keys
  import opened RecordModel
  import opened IndexSteps
  import opened MapModel
  import opened Database

  datatype Request =
    | Store(key: seq<byte>, val: seq<byte>, replace: bool)
    | Swap(key: seq<byte>, val: seq<byte>)
    | Delete(key: seq<byte>)
    | Take(key: seq<byte>)
    | Look(key: seq<byte>)
    | Count

  datatype Answer = Told(ok: bool) | Got(val: Option<seq<byte>>) | Counts(n: nat)

  type Content = map<seq<byte>, seq<byte>>

  /** Keys are shorter than 2 GiB; one that is stored is not empty, and its record fits the 32-bit total. */
  predicate Proper(r: Request) {
    (!r.Count? ==> |r.key| < KEYLIMIT) && (r.Store? || r.Swap? ==> r.key != [] && 8 + |r.key| + |r.val| < LIMIT)
  }

  /** What the map becomes. */
  function After(m: Content, r: Request): Content {
    match r
    case Store(k, v, replace) => if replace || k !in m then m[k := v] else m
    case Swap(k, v) => m[k := v]
    case Delete(k) => m - {k}
    case Take(k) => m - {k}
    case Look(_) => m
    case Count => m
  }

  /** What the map answers. */
  function Says(m: Content, r: Request): Answer {
    match r
    case Store(k, _, replace) => Told(replace || k !in m)
    case Swap(k, _) => Got(if k in m then Some(m[k]) else None)
    case Delete(k) => Told(k in m)
    case Take(k) => Got(if k in m then Some(m[k]) else None)
    case Look(k) => Got(if k in m then Some(m[k]) else None)
    case Count => Counts(|m| % COUNTERS)
  }

  function AfterAll(m: Content, script: seq<Request>): Content {
    if script == [] then m else After(AfterAll(m, script[..|script| - 1]), script[|script| - 1])
  }

  function SaysAll(m: Content, script: seq<Request>): seq<Answer> {
    if script == [] then []
    else SaysAll(m, script[..|script| - 1]) + [Says(AfterAll(m, script[..|script| - 1]), script[|script| - 1])]
  }

  /** One request. */
  method Serve(t: Table, r: Request) returns (a: Answer)
    requires t.Valid() && Proper(r)
    modifies t, t.index, t.index.PageObjs(), t.data, t.space
    ensures t.Valid() && t.Map() == After(old(t.Map()), r) && a == Says(old(t.Map()), r)
    ensures fresh(t.index.PageObjs() - old(t.index.PageObjs()))
  {
    hide Table.Valid, Table.Whole, Table.Map, Modest;
    if !r.Count? { t.ValidReady(r.key); }
    match r
    case Store(k, v, replace) =>
      var ok := t.Put(k, v, replace);
      a := Told(ok);
    case Swap(k, v) =>
      var was := t.Exchange(k, v);
      a := Got(was);
    case Delete(k) =>
      var ok := t.Del(k);
      a := Told(ok);
    case Take(k) =>
      var was := t.Withdraw(k);
      a := Got(was);
    case Look(k) =>
      assert allocated(t.index.PageObjs());
      var v := t.Find(k);
      a := Got(v);
    case Count =>
      assert allocated(t.index.PageObjs());
      var n := t.RecordCount();
      a := Counts(n);
  }

  /** All requests of a script, from an empty table on. */
  method Run(script: seq<Request>) returns (t: Table, answers: seq<Answer>)
    requires forall k | 0 <= k < |script| :: Proper(script[k])
    ensures t.Valid() && t.Map() == AfterAll(map[], script) && answers == SaysAll(map[], script)
  {
    hide Table.Valid, Table.Map, After, Says;
    t := new Table();
    answers := [];
    for k := 0 to |script|
      invariant fresh(t) && fresh(t.index) && fresh(t.index.PageObjs()) && fresh(t.data) && fresh(t.space)
      invariant t.Valid() && t.Map() == AfterAll(map[], script[..k]) && answers == SaysAll(map[], script[..k])
    {
      var a := Serve(t, script[k]);
      assert script[..k + 1][..k] == script[..k];
      answers := answers + [a];
    }
    assert script[..|script|] == script;
  }

  /** The empty key: after a put() a find() gives nothing, and a second put() that may not replace is not refused. */
  method EmptyKeyTwice(val: seq<byte>, other: seq<byte>)
    returns (t: Table, first: bool, found: Option<seq<byte>>, second: bool)
    requires 8 + |val| < LIMIT && 8 + |other| < LIMIT
    ensures t.Ready([]) && first && found == None && second && |t.index.g.G| == 2
  {
    hide Table.Valid, Table.Ready, Table.Map;
    t := new Table();
    t.ValidReady([]);
    first := StoreLost(t, val);
    assert allocated(t.index.PageObjs());
    found := t.Find([]);
    second := StoreLost(t, other);
  }

  /** put() under the empty key, without leave to replace. */
  method StoreLost(t: Table, val: seq<byte>) returns (ok: bool)
    requires t.Ready([]) && 8 + |val| < LIMIT
    modifies t, t.index, t.index.PageObjs(), t.data, t.space
    ensures t.Ready([]) && ok && |t.index.g.G| == |old(t.index.g.G)| + 1
            && fresh(t.index.PageObjs() - old(t.index.PageObjs()))
  {
    hide Table.Ready, Table.Lost;
    ghost var G, was := t.index.g.G, t.data.Data();
    ok := t.Put([], val, false);
    Table.LostGrows(G, was, val, t.index.g.G, t.data.Data());
  }
}
