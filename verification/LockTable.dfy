/** The lock table of `znet/common/lock.h`: who holds and who waits for what, and the chase that finds deadlocks. */
module LockTable {

  type Role = nat
  type Resource = nat

  datatype Answer = GRANT | BLOCK | DEADLOCK

  // ---------- the wait-for graph ----------

  /** Role r waits for a resource that somebody holds. */
  predicate Waits(prq: map<Role, Resource>, grq: map<Resource, Role>, r: Role) {
    r in prq && prq[r] in grq
  }

  function Holder(prq: map<Role, Resource>, grq: map<Resource, Role>, r: Role): Role
    requires Waits(prq, grq, r)
  {
    grq[prq[r]]
  }

  /** b is met n steps behind a. */
  ghost predicate Leads(prq: map<Role, Resource>, grq: map<Resource, Role>, a: Role, b: Role, n: nat)
    decreases n
  {
    if n == 0 then a == b else Waits(prq, grq, a) && Leads(prq, grq, Holder(prq, grq, a), b, n - 1)
  }

  ghost predicate Path(prq: map<Role, Resource>, grq: map<Resource, Role>, a: Role, b: Role, n: nat) {
    Leads(prq, grq, a, b, n)
  }

  ghost predicate Reaches(prq: map<Role, Resource>, grq: map<Resource, Role>, a: Role, b: Role) {
    exists n: nat :: Path(prq, grq, a, b, n)
  }

  /** Nobody waits for himself, directly or through others. */
  ghost predicate Acyclic(prq: map<Role, Resource>, grq: map<Resource, Role>) {
    forall a, n: nat {:trigger Path(prq, grq, a, a, n)} | n > 0 :: !Path(prq, grq, a, a, n)
  }

  lemma {:induction false} LeadsFurther(prq: map<Role, Resource>, grq: map<Resource, Role>, a: Role, b: Role, n: nat,
      c: Role, m: nat)
    requires Leads(prq, grq, a, b, n) && Leads(prq, grq, b, c, m)
    ensures Leads(prq, grq, a, c, n + m)
    decreases n
  {
    if n > 0 { LeadsFurther(prq, grq, Holder(prq, grq, a), b, n - 1, c, m); }
  }

  /** What a graph with fewer edges shows, the larger one shows. */
  lemma {:induction false} LeadsMore(p: map<Role, Resource>, g: map<Resource, Role>, q: map<Role, Resource>,
      h: map<Resource, Role>, a: Role, b: Role, n: nat)
    requires Leads(p, g, a, b, n)
    requires forall r | Waits(p, g, r) :: Waits(q, h, r) && Holder(q, h, r) == Holder(p, g, r)
    ensures Leads(q, h, a, b, n)
    decreases n
  {
    if n > 0 { LeadsMore(p, g, q, h, Holder(p, g, a), b, n - 1); }
  }

  lemma FewerEdges(p: map<Role, Resource>, g: map<Resource, Role>, q: map<Role, Resource>, h: map<Resource, Role>)
    requires Acyclic(q, h)
    requires forall r | Waits(p, g, r) :: Waits(q, h, r) && Holder(q, h, r) == Holder(p, g, r)
    ensures Acyclic(p, g)
  {
    forall a, n: nat | n > 0
      ensures !Path(p, g, a, a, n)
    {
      assert !Path(q, h, a, a, n);
      if Path(p, g, a, a, n) { LeadsMore(p, g, q, h, a, a, n); }
    }
  }

  /** A path in the graph with one more edge, from `role`, either is an old one or passes through `role`. */
  lemma {:induction false} ThroughRole(prq: map<Role, Resource>, grq: map<Resource, Role>, role: Role, res: Resource,
      a: Role, b: Role, n: nat)
    returns (m: nat)
    requires role !in prq && Leads(prq[role := res], grq, a, b, n)
    ensures Leads(prq, grq, a, b, n) || (m < n && Leads(prq, grq, a, role, m))
    decreases n
  {
    m := 0;
    if n > 0 && a != role {
      m := ThroughRole(prq, grq, role, res, Holder(prq[role := res], grq, a), b, n - 1);
      m := m + 1;
    }
  }

  /** A new edge closes a cycle exactly if its end led to its start before. */
  lemma NewEdge(prq: map<Role, Resource>, grq: map<Resource, Role>, role: Role, res: Resource)
    requires Acyclic(prq, grq) && role !in prq && res in grq
    ensures Acyclic(prq[role := res], grq) <==> !Reaches(prq, grq, grq[res], role)
  {
    var q := prq[role := res];
    if Reaches(prq, grq, grq[res], role) {
      var m: nat :| Path(prq, grq, grq[res], role, m);
      LeadsMore(prq, grq, q, grq, grq[res], role, m);
      assert Path(q, grq, role, role, m + 1);
    } else {
      forall a, n: nat | n > 0
        ensures !Path(q, grq, a, a, n)
      {
        if Path(q, grq, a, a, n) { NoCycle(prq, grq, role, res, a, n); }
      }
    }
  }

  /** A cycle of the larger graph would pass through `role` and so lead from the holder back to `role`. */
  lemma NoCycle(prq: map<Role, Resource>, grq: map<Resource, Role>, role: Role, res: Resource, a: Role, n: nat)
    requires Acyclic(prq, grq) && role !in prq && res in grq && n > 0
    requires Leads(prq[role := res], grq, a, a, n)
    ensures Reaches(prq, grq, grq[res], role)
  {
    var q := prq[role := res];
    var k := ThroughRole(prq, grq, role, res, a, a, n);
    assert !Path(prq, grq, a, a, n);
    LeadsMore(prq, grq, q, grq, a, role, k);
    Remainder(q, grq, a, role, k, a, n);
    LeadsFurther(q, grq, role, a, n - k, role, k);
    assert Leads(q, grq, grq[res], role, n - 1);
    var m := ThroughRole(prq, grq, role, res, grq[res], role, n - 1);
    assert Path(prq, grq, grq[res], role, n - 1) || Path(prq, grq, grq[res], role, m);
  }

  /** Paths from one role are unique: a longer one continues a shorter one. */
  lemma {:induction false} Remainder(prq: map<Role, Resource>, grq: map<Resource, Role>, a: Role, b: Role, n: nat,
      c: Role, m: nat)
    requires Leads(prq, grq, a, b, n) && Leads(prq, grq, a, c, m) && n <= m
    ensures Leads(prq, grq, b, c, m - n)
    decreases n
  {
    if n > 0 { Remainder(prq, grq, Holder(prq, grq, a), b, n - 1, c, m - 1); }
  }

  /** Somebody who waits for nobody can be granted anything: those who wait for it lead nowhere new. */
  lemma {:induction false} NewHolder(prq: map<Role, Resource>, grq: map<Resource, Role>, role: Role, res: Resource,
      a: Role, b: Role, n: nat)
    requires role !in prq && res !in grq && Leads(prq, grq[res := role], a, b, n) && b != role
    ensures Leads(prq, grq, a, b, n)
    decreases n
  {
    if n > 0 {
      NewHolder(prq, grq, role, res, Holder(prq, grq[res := role], a), b, n - 1);
    }
  }

  lemma GrantKeepsAcyclic(prq: map<Role, Resource>, grq: map<Resource, Role>, role: Role, res: Resource)
    requires Acyclic(prq, grq) && role !in prq && res !in grq
    ensures Acyclic(prq, grq[res := role])
  {
    var h := grq[res := role];
    forall a, n: nat | n > 0
      ensures !Path(prq, h, a, a, n)
    {
      assert !Path(prq, grq, a, a, n);
      if Path(prq, h, a, a, n) && a != role { NewHolder(prq, grq, role, res, a, a, n); }
    }
  }

  /** The walk from `start` came to its end without meeting `role`, who waits for nobody. */
  lemma NeverMet(p: map<Role, Resource>, grq: map<Resource, Role>, start: Role, r: Role, n: nat, role: Role)
    requires Leads(p, grq, start, r, n) && !Waits(p, grq, r) && role !in p && r != role
    ensures !Reaches(p, grq, start, role)
  {
    forall k: nat
      ensures !Path(p, grq, start, role, k)
    {
      if Path(p, grq, start, role, k) {
        if k <= n {
          Remainder(p, grq, start, role, k, r, n);
        } else {
          Remainder(p, grq, start, r, n, role, k);
        }
      }
    }
  }

  /** Roles met on a walk in a graph without circles differ. */
  lemma NeverAgain(p: map<Role, Resource>, grq: map<Resource, Role>, start: Role, q: Role, k: nat, r: Role, n: nat)
    requires Acyclic(p, grq) && Leads(p, grq, start, q, k) && Leads(p, grq, start, r, n) && k < n
    ensures q != r
  {
    Remainder(p, grq, start, q, k, r, n);
    assert !Path(p, grq, r, r, n - k);
  }

  // ---------- the table ----------

  class LockTable {
    var prq: map<Role, Resource>          // who waits for what
    var grq: map<Resource, Role>          // who holds what
    ghost var doomed: set<Role>           // told DEADLOCK and not yet withdrawn

    /** Without the requests that were answered DEADLOCK nobody waits in a circle. */
    ghost predicate Valid()
      reads this
    {
      doomed <= prq.Keys && Acyclic(prq - doomed, grq)
    }

    constructor ()
      ensures Valid() && prq == map[] && grq == map[] && doomed == {}
    {
      prq, grq, doomed := map[], map[], {};
    }

    /** Lock(): grants a free resource, else waits; DEADLOCK exactly if the wait closes a circle. */
    method Lock(role: Role, resource: Resource) returns (answer: Answer)
      requires Valid() && doomed == {}
      modifies this
      ensures Valid()
      ensures role in old(prq) ==> answer == BLOCK && prq == old(prq) && grq == old(grq) && doomed == {}
      ensures role !in old(prq) && resource !in old(grq) ==>
              answer == GRANT && prq == old(prq) && grq == old(grq)[resource := role] && doomed == {}
      ensures role !in old(prq) && resource in old(grq) && old(grq)[resource] == role ==>
                answer == GRANT && prq == old(prq) && grq == old(grq) && doomed == {}
      ensures role !in old(prq) && resource in old(grq) && old(grq)[resource] != role ==>
                && prq == old(prq)[role := resource] && grq == old(grq) && answer != GRANT
                && (answer == DEADLOCK <==> Reaches(old(prq), grq, grq[resource], role))
                && (answer == DEADLOCK <==> !Acyclic(prq, grq))
                && doomed == (if answer == DEADLOCK then {role} else {})
    {
      assert prq - {} == prq;
      if role in prq {
        return BLOCK;
      }
      if resource !in grq {
        GrantKeepsAcyclic(prq, grq, role, resource);
        grq := grq[resource := role];
        return GRANT;
      }
      var r := grq[resource];
      if r == role {
        return GRANT;
      }
      ghost var p := prq;
      NewEdge(p, grq, role, resource);
      prq := prq[role := resource];
      assert prq - {role} == p && prq - {} == prq;
      answer := Chase(role, r, p);
      doomed := if answer == DEADLOCK then {role} else {};
    }

    /** The loop of Lock(): from holder to holder until somebody does not wait, or it comes back to `role`. */
    method Chase(role: Role, start: Role, ghost p: map<Role, Resource>) returns (answer: Answer)
      requires role !in p && role in prq && prq == p[role := prq[role]] && Acyclic(p, grq) && start != role
      ensures answer == (if Reaches(p, grq, start, role) then DEADLOCK else BLOCK)
    {
      var r := start;
      ghost var n: nat, seen := 0, {};
      while r in prq && prq[r] in grq
        invariant Leads(p, grq, start, r, n) && r != role && seen <= p.Keys && r !in seen
        invariant forall q | q in seen :: exists k: nat :: k < n && Path(p, grq, start, q, k)
        decreases p.Keys - seen
      {
        ghost var s := r;
        r := grq[prq[r]];
        LeadsFurther(p, grq, start, s, n, r, 1);
        forall q | q in seen + {s}
          ensures q != r && exists k: nat :: k < n + 1 && Path(p, grq, start, q, k)
        {
          if q == s {
            assert Path(p, grq, start, q, n);
            NeverAgain(p, grq, start, q, n, r, n + 1);
          } else {
            var k: nat :| k < n && Path(p, grq, start, q, k);
            NeverAgain(p, grq, start, q, k, r, n + 1);
          }
        }
        n := n + 1;
        seen := seen + {s};
        if r == role {
          assert Path(p, grq, start, role, n);
          return DEADLOCK;
        }
      }
      NeverMet(p, grq, start, r, n, role);
      return BLOCK;
    }

    /** Unlock(): the role withdraws its request for the resource, or gives the resource back; then those
        who wait for it are notified. */
    method Unlock(role: Role, resource: Resource) returns (notified: seq<Role>)
      requires Valid()
      modifies this
      ensures Valid() && doomed <= old(doomed)
      ensures role in old(prq) && old(prq)[role] == resource ==>
                prq == old(prq) - {role} && grq == old(grq) && notified == [] && doomed == old(doomed) - {role}
      ensures !(role in old(prq) && old(prq)[role] == resource) ==>
                && prq == old(prq) && doomed == old(doomed)
                && grq == (if resource in old(grq) && old(grq)[resource] == role then old(grq) - {resource}
                    else old(grq))
      ensures grq != old(grq) ==> forall w :: w in notified <==> w in prq && prq[w] == resource
      ensures grq == old(grq) ==> notified == []
    {
      ghost var p, g := prq - doomed, grq;
      notified := [];
      if role in prq && prq[role] == resource {
        prq, doomed := prq - {role}, doomed - {role};
        FewerEdges(prq - doomed, grq, p, g);
        return;
      }
      if resource !in grq || grq[resource] != role {
        return;
      }
      grq := grq - {resource};
      FewerEdges(prq - doomed, grq, p, g);
      var rest := prq.Keys;
      while rest != {}
        invariant rest <= prq.Keys
        invariant forall w :: w in notified <==> w in prq.Keys - rest && prq[w] == resource
        decreases rest
      {
        var w :| w in rest;
        if prq[w] == resource {
          notified := notified + [w];
        }
        rest := rest - {w};
      }
    }

    /** The other Unlock(): the role withdraws its request and gives everything back. */
    method UnlockAll(role: Role) returns (notified: set<(Role, Resource)>)
      requires Valid()
      modifies this
      ensures Valid() && prq == old(prq) - {role} && doomed == old(doomed) - {role}
      ensures grq == map x | x in old(grq) && old(grq)[x] != role :: old(grq)[x]
      ensures notified == set w | w in prq && prq[w] in old(grq) && old(grq)[prq[w]] == role :: (w, prq[w])
    {
      ghost var p, g := prq - doomed, grq;
      prq, doomed := prq - {role}, doomed - {role};
      notified := {};
      var held := set x | x in grq && grq[x] == role;
      ghost var all := held;
      while held != {}
        invariant held <= all && all == set x | x in g && g[x] == role
        invariant prq == old(prq) - {role} && doomed == old(doomed) - {role}
        invariant grq == g - (all - held)
        invariant notified == set w | w in prq && prq[w] in all - held :: (w, prq[w])
        decreases held
      {
        var x :| x in held;
        notified := notified + set w | w in prq && prq[w] == x :: (w, x);
        grq := grq - {x};
        held := held - {x};
      }
      FewerEdges(prq - doomed, grq, p, g);
    }
  }
}
