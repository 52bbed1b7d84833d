/** Handing out numbers for keys, as the request counter does it twice: for traces, and for the requests of a trace.
    A new record is published with its mutex held and number zero; its founder takes the next number, stores it and
    unlocks.  Whoever reads zero waits for the mutex once. */
module Registry {

  datatype Mutex = Free | HeldBy(thread: nat)

  datatype Entry = Entry(mu: Mutex, num: int)

  /** What a call is doing with one registry. */
  datatype Role =
    | Away
    | Counting(key: nat)
    | Publishing(key: nat, n: int)
    | Unlocking(key: nat)
    | Asking(key: nat)
    | Holding(key: nat)
    | Past(key: nat)

  datatype Reg = Reg(count: int, entries: map<nat, Entry>, roles: map<nat, Role>)

  predicate Holds(r: Role) {
    r.Counting? || r.Publishing? || r.Unlocking? || r.Holding?
  }

  /** `n` is the number of `k`, stored or on its way. */
  predicate Has(g: Reg, k: nat, n: int) {
    && k in g.entries
    && (g.entries[k].num == n
        || (g.entries[k].mu.HeldBy? && g.entries[k].mu.thread in g.roles && g.roles[g.entries[k].mu.thread] == Publishing(k, n)))
  }

  function Counters(g: Reg): set<nat> {
    set t | t in g.roles && g.roles[t].Counting?
  }

  /** What a role says about the record it is working on. */
  predicate RoleFits(g: Reg, t: nat)
    requires t in g.roles
  {
    var r := g.roles[t];
    r.Away? || (
      && r.key in g.entries
      && (Holds(r) ==> g.entries[r.key].mu == HeldBy(t))
      && (if r.Counting? || r.Publishing? then g.entries[r.key].num == 0 else r.Asking? || g.entries[r.key].num != 0)
      && (r.Publishing? ==> r.n != 0))
  }

  /** A locked record is held by a call that works on it; one without a number by a call about to store one. */
  predicate EntryFits(g: Reg, k: nat)
    requires k in g.entries
  {
    var e := g.entries[k];
    && (e.mu.HeldBy? ==> e.mu.thread in g.roles && Holds(g.roles[e.mu.thread]) && g.roles[e.mu.thread].key == k)
    && (e.num == 0 ==> e.mu.HeldBy? && (g.roles[e.mu.thread].Counting? || g.roles[e.mu.thread].Publishing?))
  }

  predicate Locks(g: Reg) {
    && (forall t :: t in g.roles ==> RoleFits(g, t))
    && (forall k :: k in g.entries ==> EntryFits(g, k))
  }

  /** The numbers stored or on their way are exactly 1..count, each for one key. */
  ghost predicate Numbers(g: Reg) {
    && g.count >= 0
    && (forall k, n :: Has(g, k, n) && n != 0 ==> 1 <= n <= g.count)
    && (forall k, k', n :: Has(g, k, n) && Has(g, k', n) && n != 0 ==> k == k')
    && (forall n :: 1 <= n <= g.count ==> Taken(g, n))
  }

  ghost predicate Taken(g: Reg, n: int) {
    exists k :: Has(g, k, n)
  }

  /** As many records as numbers taken and numbers about to be taken; every record belongs to some call. */
  ghost predicate Sizes(g: Reg) {
    && g.count + |Counters(g)| == |g.entries|
    && (forall k :: k in g.entries ==> Owned(g, k))
  }

  ghost predicate Inv(g: Reg) {
    Locks(g) && Numbers(g) && Sizes(g)
  }

  /** A step of call `t` that concerns key `k`. */
  predicate Step(g: Reg, t: nat, k: nat, h: Reg) {
    t in g.roles && (!g.roles[t].Away? ==> g.roles[t].key == k && k in g.entries) &&
    match g.roles[t]
    case Away =>
      if k !in g.entries then h == g.(entries := g.entries[k := Entry(HeldBy(t), 0)], roles := g.roles[t := Counting(k)])
      else h == g.(roles := g.roles[t := Asking(k)])
    case Counting(_) => h == g.(count := g.count + 1, roles := g.roles[t := Publishing(k, g.count + 1)])
    case Publishing(_, n) => h == g.(entries := g.entries[k := g.entries[k].(num := n)], roles := g.roles[t := Unlocking(k)])
    case Unlocking(_) => h == g.(entries := g.entries[k := g.entries[k].(mu := Free)], roles := g.roles[t := Asking(k)])
    case Asking(_) =>
      || (g.entries[k].num != 0 && h == g.(roles := g.roles[t := Past(k)]))
      || (g.entries[k].mu == Free && h == g.(entries := g.entries[k := g.entries[k].(mu := HeldBy(t))], roles := g.roles[t := Holding(k)]))
    case Holding(_) => h == g.(entries := g.entries[k := g.entries[k].(mu := Free)], roles := g.roles[t := Past(k)])
    case Past(_) => false
  }

  lemma StepLocks(g: Reg, t: nat, k: nat, h: Reg)
    requires Locks(g) && g.count >= 0 && Step(g, t, k, h)
    ensures Locks(h)
  {
    assert RoleFits(g, t);
    assert k in g.entries ==> EntryFits(g, k);
    assert h.roles.Keys == g.roles.Keys && h.entries.Keys == g.entries.Keys + {k};
    forall u | u in h.roles
      ensures RoleFits(h, u)
    {
      assert RoleFits(g, u);
    }
    forall j | j in h.entries
      ensures EntryFits(h, j)
    {
      assert j != k ==> EntryFits(g, j);
    }
  }

  /** Only taking a number changes who has which. */
  lemma StepHas(g: Reg, t: nat, k: nat, h: Reg, k': nat, n: int)
    requires Locks(g) && Step(g, t, k, h) && n != 0
    ensures Has(h, k', n) <==> Has(g, k', n) || (g.roles[t].Counting? && k' == k && n == g.count + 1)
  {
    assert RoleFits(g, t);
    assert k' in g.entries ==> EntryFits(g, k');
  }

  lemma StepNumbers(g: Reg, t: nat, k: nat, h: Reg)
    requires Inv(g) && Step(g, t, k, h)
    ensures Numbers(h)
  {
    forall k', n | n != 0
      ensures Has(h, k', n) <==> Has(g, k', n) || (g.roles[t].Counting? && k' == k && n == g.count + 1)
    {
      StepHas(g, t, k, h, k', n);
    }
    assert RoleFits(g, t);
    forall n | 1 <= n <= h.count
      ensures Taken(h, n)
    {
      if n == g.count + 1 {
        assert Has(h, k, n);
      } else {
        assert Taken(g, n);
        var k' :| Has(g, k', n);
        assert Has(h, k', n);
      }
    }
    if g.roles[t].Counting? {
      assert forall n :: n != 0 ==> !Has(g, k, n);
    }
  }

  lemma StepCounters(g: Reg, t: nat, k: nat, h: Reg)
    requires Step(g, t, k, h)
    ensures t in g.roles && (!g.roles[t].Away? ==> k in g.entries)
    ensures h.roles.Keys == g.roles.Keys && h.entries.Keys == g.entries.Keys + {k}
    ensures h.count == if g.roles[t].Counting? then g.count + 1 else g.count
    ensures Counters(h) == if g.roles[t].Counting? then Counters(g) - {t} else if g.roles[t].Away? && k !in g.entries then Counters(g) + {t} else Counters(g)
    ensures t in Counters(g) <==> g.roles[t].Counting?
  {
  }

  lemma MoreEntries(a: map<nat, Entry>, b: map<nat, Entry>, k: nat)
    requires b.Keys == a.Keys + {k}
    ensures |b| == |a| + (if k in a then 0 else 1)
  {
    assert |a| == |a.Keys| && |b| == |b.Keys|;
    if k in a {
      assert b.Keys == a.Keys;
    }
  }

  lemma StepSizes(g: Reg, t: nat, k: nat, h: Reg)
    requires Sizes(g) && Step(g, t, k, h)
    ensures Sizes(h)
  {
    hide Counters, Owned, Step;
    StepCounters(g, t, k, h);
    MoreEntries(g.entries, h.entries, k);
    StepOwned(g, t, k, h);
  }

  ghost predicate Owned(g: Reg, k: nat) {
    exists t :: t in g.roles && !g.roles[t].Away? && g.roles[t].key == k
  }

  lemma StepOwned(g: Reg, t: nat, k: nat, h: Reg)
    requires Step(g, t, k, h) && forall k' :: k' in g.entries ==> Owned(g, k')
    ensures forall k' :: k' in h.entries ==> Owned(h, k')
  {
    forall k' | k' in h.entries
      ensures Owned(h, k')
    {
      if k' == k {
        assert t in h.roles && h.roles[t].key == k;
      } else {
        assert Owned(g, k');
        var t' :| t' in g.roles && !g.roles[t'].Away? && g.roles[t'].key == k';
        assert t' != t && h.roles[t'] == g.roles[t'];
      }
    }
  }

  lemma StepInv(g: Reg, t: nat, k: nat, h: Reg)
    requires Inv(g) && Step(g, t, k, h)
    ensures Inv(h)
  {
    StepLocks(g, t, k, h);
    StepNumbers(g, t, k, h);
    StepSizes(g, t, k, h);
  }

  lemma InvEmpty(g: Reg)
    requires g.count == 0 && g.entries == map[] && forall t :: t in g.roles ==> g.roles[t].Away?
    ensures Inv(g)
  {
    assert Counters(g) == {};
  }

  /** The mutex of a record is held by a call that works on it and does not wait. */
  lemma HolderOf(g: Reg, k: nat)
    requires Inv(g) && k in g.entries && g.entries[k].mu.HeldBy?
    ensures var t := g.entries[k].mu.thread; t in g.roles && Holds(g.roles[t]) && g.roles[t].key == k
  {
    assert EntryFits(g, k);
  }

  /** Different keys have different numbers. */
  lemma Distinct(g: Reg, k: nat, k': nat)
    requires Inv(g) && k in g.entries && k' in g.entries && g.entries[k].num != 0
    ensures g.entries[k].num >= 1 && (g.entries[k].num == g.entries[k'].num <==> k == k')
  {
    assert Has(g, k, g.entries[k].num) && Has(g, k', g.entries[k'].num);
  }

  /** When nobody is at work, the stored numbers are exactly 1..count. */
  lemma Gapless(g: Reg, n: int)
    requires Inv(g) && forall t :: t in g.roles ==> g.roles[t].Past? || g.roles[t].Away?
    ensures 1 <= n <= g.count <==> exists k :: k in g.entries && g.entries[k].num == n
  {
    if 1 <= n <= g.count {
      assert Taken(g, n);
      var k :| Has(g, k, n);
      assert EntryFits(g, k);
    }
    if k :| k in g.entries && g.entries[k].num == n {
      assert Has(g, k, n) && EntryFits(g, k);
    }
  }

  lemma OwnerOf(g: Reg, k: nat)
    requires Inv(g) && k in g.entries
    ensures Owned(g, k)
  {
  }
}
