/** The store with expiring entries of `hard-eval/results/h3_store.verified.js`:
    expired entries are removed only when some call looks at them. */
module TtlStore {
  import opened Text

  datatype Expiry = Forever | Until(t: real)
  datatype Entry<V> = Entry(v: V, exp: Expiry)

  predicate Visible<V>(e: Entry<V>, now: real) {
    e.exp.Until? ==> now < e.exp.t
  }

  function LiveKeys<K, V>(m: map<K, Entry<V>>, now: real): set<K> {
    set k | k in m && Visible(m[k], now)
  }

  // ---------- the calls ----------

  datatype Ttl = NoTtl | Ms(ms: real)
  datatype Call<K, V> = Set(k: K, v: V, ttl: Ttl) | Del(k: K) | Get(k: K) | Has(k: K) | Size

  datatype Answer<V> = Nothing | Value(v: V) | Undefined | Flag(b: bool) | Count(n: nat)

  /** Looking at a key drops it if its time is up. */
  function Touch<K, V>(m: map<K, Entry<V>>, k: K, now: real): map<K, Entry<V>> {
    if k in m && !Visible(m[k], now) then m - {k} else m
  }

  function Purge<K, V>(m: map<K, Entry<V>>, now: real): map<K, Entry<V>> {
    map k | k in m && Visible(m[k], now) :: m[k]
  }

  function Write<K, V>(m: map<K, Entry<V>>, k: K, v: V, ttl: Ttl, now: real): map<K, Entry<V>> {
    m[k := Entry(v, if ttl.NoTtl? then Forever else Until(now + ttl.ms))]
  }

  /** A call with the clock reading it sees. */
  datatype Timed<K, V> = Timed(call: Call<K, V>, now: real)

  function LazyStep<K, V>(m: map<K, Entry<V>>, c: Timed<K, V>): (map<K, Entry<V>>, Answer<V>) {
    match c.call
    case Set(k, v, ttl) => (Write(m, k, v, ttl, c.now), Nothing)
    case Del(k) => (m - {k}, Nothing)
    case Get(k) => (Touch(m, k, c.now), if k in LiveKeys(m, c.now) then Value(m[k].v) else Undefined)
    case Has(k) => (Touch(m, k, c.now), Flag(k in LiveKeys(m, c.now)))
    case Size => (Purge(m, c.now), Count(|LiveKeys(m, c.now)|))
  }

  class Store<K(==), V> {
    var entries: map<K, Entry<V>>

    constructor ()
      ensures entries == map[]
    {
      entries := map[];
    }

    method Live(k: K, now: real) returns (live: bool)
      modifies this
      ensures entries == Touch(old(entries), k, now)
      ensures live <==> k in LiveKeys(old(entries), now)
    {
      if k !in entries {
        return false;
      }
      var e := entries[k];
      if e.exp.Until? && now >= e.exp.t {
        entries := entries - {k};
        return false;
      }
      return true;
    }

    method Set(k: K, v: V, ttl: Ttl, now: real)
      modifies this
      ensures (entries, Nothing) == LazyStep(old(entries), Timed(Call.Set(k, v, ttl), now))
    {
      entries := entries[k := Entry(v, if ttl.NoTtl? then Forever else Until(now + ttl.ms))];
    }

    method Get(k: K, now: real) returns (r: Answer<V>)
      modifies this
      ensures (entries, r) == LazyStep(old(entries), Timed(Call.Get(k), now))
    {
      var live := Live(k, now);
      if live {
        return Value(entries[k].v);
      }
      return Undefined;
    }

    method Has(k: K, now: real) returns (live: bool)
      modifies this
      ensures (entries, Flag(live)) == LazyStep(old(entries), Timed(Call.Has(k), now))
    {
      live := Live(k, now);
    }

    method Del(k: K) returns (removed: bool)
      modifies this
      ensures forall now :: (entries, Nothing) == LazyStep(old(entries), Timed(Call.Del(k), now))
      ensures removed <==> k in old(entries)
    {
      removed := k in entries;
      entries := entries - {k};
    }

    /** Reads the clock anew for every key, in whatever order the keys come. What is counted is live at
        the earliest reading, and all that is live at the latest one is counted. */
    method Size(clock: seq<real>) returns (n: nat)
      requires |clock| == |entries|
      modifies this
      ensures n == |entries| && entries.Keys <= old(entries.Keys)
      ensures forall k :: k in entries ==> entries[k] == old(entries)[k]
      ensures forall lo, hi :: Within(clock, lo, hi) ==>
        LiveKeys(old(entries), hi) <= entries.Keys <= LiveKeys(old(entries), lo)
      ensures forall lo, hi :: Within(clock, lo, hi) ==>
        |LiveKeys(old(entries), hi)| <= n <= |LiveKeys(old(entries), lo)|
      ensures forall now :: Within(clock, now, now) ==>
        (entries, Count(n)) == LazyStep(old(entries), Timed(Call.Size, now))
    {
      var keys, i := entries.Keys, 0;
      ghost var was := entries;
      while keys != {}
        invariant keys <= was.Keys && i + |keys| == |clock|
        invariant entries.Keys <= was.Keys && forall k :: k in entries ==> entries[k] == was[k]
        invariant forall k :: k in keys ==> k in entries
        invariant forall lo, hi :: Within(clock, lo, hi) ==>
          forall k :: k in was && k !in keys ==>
            (k in entries ==> Visible(was[k], lo)) && (Visible(was[k], hi) ==> k in entries)
        decreases |keys|
      {
        var k :| k in keys;
        var _ := Live(k, clock[i]);
        keys, i := keys - {k}, i + 1;
      }
      SizesOrdered(was, entries, clock);
      return |entries|;
    }
  }

  predicate Within(clock: seq<real>, lo: real, hi: real) {
    lo <= hi && forall i :: 0 <= i < |clock| ==> lo <= clock[i] <= hi
  }

  lemma {:induction false} Smaller<K>(a: set<K>, b: set<K>)
    requires a <= b
    ensures |a| <= |b|
  {
    assert b == a + (b - a);
  }

  lemma {:induction false} SizesOrdered<K, V>(was: map<K, Entry<V>>, now: map<K, Entry<V>>, clock: seq<real>)
    requires now.Keys <= was.Keys && forall k :: k in now ==> now[k] == was[k]
    requires forall lo, hi :: Within(clock, lo, hi) ==> LiveKeys(was, hi) <= now.Keys <= LiveKeys(was, lo)
    ensures forall lo, hi :: Within(clock, lo, hi) ==> |LiveKeys(was, hi)| <= |now| <= |LiveKeys(was, lo)|
    ensures forall t :: Within(clock, t, t) ==> now == Purge(was, t) && |now| == |LiveKeys(was, t)|
  {
    forall lo, hi | Within(clock, lo, hi) ensures |LiveKeys(was, hi)| <= |now| <= |LiveKeys(was, lo)| {
      Smaller(LiveKeys(was, hi), now.Keys);
      Smaller(now.Keys, LiveKeys(was, lo));
    }
    forall t | Within(clock, t, t) ensures now == Purge(was, t) && |now| == |LiveKeys(was, t)| {
      assert now.Keys == LiveKeys(was, t);
    }
  }

  // ---------- runs, lazily purged and never purged ----------

  /** The reference: entries are never purged, only seen or not seen. */
  function EagerStep<K, V>(m: map<K, Entry<V>>, c: Timed<K, V>): (map<K, Entry<V>>, Answer<V>) {
    match c.call
    case Set(k, v, ttl) => (Write(m, k, v, ttl, c.now), Nothing)
    case Del(k) => (m - {k}, Nothing)
    case Get(k) => (m, if k in m && Visible(m[k], c.now) then Value(m[k].v) else Undefined)
    case Has(k) => (m, Flag(k in m && Visible(m[k], c.now)))
    case Size => (m, Count(|set k | k in m && Visible(m[k], c.now)|))
  }

  function LazyRun<K, V>(m: map<K, Entry<V>>, cs: seq<Timed<K, V>>): (r: seq<Answer<V>>)
    ensures |r| == |cs|
    decreases |cs|
  {
    if cs == [] then [] else [LazyStep(m, cs[0]).1] + LazyRun(LazyStep(m, cs[0]).0, cs[1..])
  }

  function EagerRun<K, V>(m: map<K, Entry<V>>, cs: seq<Timed<K, V>>): (r: seq<Answer<V>>)
    ensures |r| == |cs|
    decreases |cs|
  {
    if cs == [] then [] else [EagerStep(m, cs[0]).1] + EagerRun(EagerStep(m, cs[0]).0, cs[1..])
  }

  /** The clock never runs back. */
  predicate Monotone<K, V>(cs: seq<Timed<K, V>>) {
    forall i, j :: 0 <= i < j < |cs| ==> cs[i].now <= cs[j].now
  }

  /** The purged map lacks only entries that are out of sight from now on. */
  ghost predicate Purged<K, V>(m: map<K, Entry<V>>, full: map<K, Entry<V>>, now: real) {
    && m.Keys <= full.Keys
    && (forall k :: k in m ==> m[k] == full[k])
    && (forall k :: k in full && k !in m ==> !Visible(full[k], now))
  }

  lemma {:induction false} StepsAgree<K, V>(m: map<K, Entry<V>>, full: map<K, Entry<V>>, c: Timed<K, V>)
    requires Purged(m, full, c.now)
    ensures LazyStep(m, c).1 == EagerStep(full, c).1
    ensures Purged(LazyStep(m, c).0, EagerStep(full, c).0, c.now)
  {
    assert LiveKeys(m, c.now) == set k | k in full && Visible(full[k], c.now);
  }

  lemma {:induction false} RunsAgree<K, V>(m: map<K, Entry<V>>, full: map<K, Entry<V>>, cs: seq<Timed<K, V>>)
    requires Monotone(cs) && (cs != [] ==> Purged(m, full, cs[0].now))
    ensures LazyRun(m, cs) == EagerRun(full, cs)
    decreases |cs|
  {
    if cs != [] {
      StepsAgree(m, full, cs[0]);
      RunsAgree(LazyStep(m, cs[0]).0, EagerStep(full, cs[0]).0, cs[1..]);
    }
  }

  /** With a clock that never runs back, lazy purging cannot be told from a store in
      which an entry is visible until its time is up. */
  lemma {:induction false} LazyIsEager<K, V>(cs: seq<Timed<K, V>>)
    requires Monotone(cs)
    ensures LazyRun(map[], cs) == EagerRun(map[], cs)
  {
    RunsAgree(map[], map[], cs);
  }

  // ---------- what the answers are ----------

  /** What a run last did to a key: it was set to a value, with a time to live, at a time. */
  datatype Last<V> = Absent | SetTo(v: V, ttl: Ttl, at: real)

  function LastOf<K(==), V>(cs: seq<Timed<K, V>>, k: K): Last<V> {
    if cs == [] then Absent
    else
      var c := cs[|cs| - 1];
      match c.call
      case Set(k', v, ttl) => if k' == k then SetTo(v, ttl, c.now) else LastOf(cs[..|cs| - 1], k)
      case Del(k') => if k' == k then Absent else LastOf(cs[..|cs| - 1], k)
      case _ => LastOf(cs[..|cs| - 1], k)
  }

  /** The key was set, and for good or not yet longer ago than its time to live. */
  predicate InSight<V>(last: Last<V>, now: real) {
    last.SetTo? && (last.ttl.Ms? ==> now < last.at + last.ttl.ms)
  }

  /** All keys some call of the run sets. */
  function KeysSet<K, V>(cs: seq<Timed<K, V>>): set<K> {
    set i | 0 <= i < |cs| && cs[i].call.Set? :: cs[i].call.k
  }

  function EagerMap<K, V>(cs: seq<Timed<K, V>>): map<K, Entry<V>> {
    if cs == [] then map[] else EagerStep(EagerMap(cs[..|cs| - 1]), cs[|cs| - 1]).0
  }

  function EntryOf<V>(last: Last<V>): Option<Entry<V>> {
    match last
    case Absent => None
    case SetTo(v, ttl, at) => Some(Entry(v, if ttl.NoTtl? then Forever else Until(at + ttl.ms)))
  }

  /** The store that never purges holds what each key was last set to. */
  lemma {:induction false} MapHoldsLast<K, V>(cs: seq<Timed<K, V>>, k: K)
    ensures var m := EagerMap(cs); (if k in m then Some(m[k]) else None) == EntryOf(LastOf(cs, k))
    ensures k in EagerMap(cs) ==> k in KeysSet(cs)
    decreases |cs|
  {
    if cs != [] {
      var front, c := cs[..|cs| - 1], cs[|cs| - 1];
      MapHoldsLast(front, k);
      assert forall i :: 0 <= i < |front| ==> front[i] == cs[i];
      assert k in KeysSet(front) ==> k in KeysSet(cs);
    }
  }

  lemma {:induction false} EagerRunAt<K, V>(m: map<K, Entry<V>>, done: seq<Timed<K, V>>, cs: seq<Timed<K, V>>, i: nat)
    requires i < |cs| && m == EagerMap(done)
    ensures EagerRun(m, cs)[i] == EagerStep(EagerMap(done + cs[..i]), cs[i]).1
    decreases |cs|
  {
    if i == 0 {
      assert done + cs[..0] == done;
    } else {
      var next := done + [cs[0]];
      assert next[..|done|] == done;
      EagerRunAt(EagerStep(m, cs[0]).0, next, cs[1..], i - 1);
      assert next + cs[1..][..i - 1] == done + cs[..i];
    }
  }

  function SeenKeys<K, V>(cs: seq<Timed<K, V>>, now: real): set<K> {
    set k | k in KeysSet(cs) && InSight(LastOf(cs, k), now)
  }

  lemma {:induction false} VisibleIsInSight<K, V>(cs: seq<Timed<K, V>>, k: K, now: real)
    ensures var m, last := EagerMap(cs), LastOf(cs, k);
      && (k in m && Visible(m[k], now) <==> InSight(last, now)) && (k in m ==> last.SetTo? && m[k].v == last.v)
    ensures k in LiveKeys(EagerMap(cs), now) <==> k in SeenKeys(cs, now)
  {
    MapHoldsLast(cs, k);
  }

  lemma {:induction false} LiveIsSeen<K, V>(cs: seq<Timed<K, V>>, now: real)
    ensures LiveKeys(EagerMap(cs), now) == SeenKeys(cs, now)
  {
    var live, seen := LiveKeys(EagerMap(cs), now), SeenKeys(cs, now);
    forall k ensures k in live <==> k in seen {
      VisibleIsInSight(cs, k, now);
    }
    assert live == seen;
  }

  /** While the clock does not run back, `get` answers the value a key was last set to, `has` that there is one,
      and `size` how many such keys there are: each until its time to live is over, and not beyond a `del`. */
  lemma {:induction false} AnswersAreLastSets<K, V>(cs: seq<Timed<K, V>>, i: nat)
    requires Monotone(cs) && i < |cs|
    ensures var before, now, a := cs[..i], cs[i].now, LazyRun(map[], cs)[i];
      match cs[i].call
      case Get(k) => a == if InSight(LastOf(before, k), now) then Value(LastOf(before, k).v) else Undefined
      case Has(k) => a == Flag(InSight(LastOf(before, k), now))
      case Size => a == Count(|SeenKeys(before, now)|)
      case _ => a == Nothing
  {
    var before, now := cs[..i], cs[i].now;
    LazyIsEager(cs);
    EagerRunAt(map[], [], cs, i);
    assert [] + before == before;
    match cs[i].call
    case Get(k) => VisibleIsInSight(before, k, now);
    case Has(k) => VisibleIsInSight(before, k, now);
    case Size =>
      LiveIsSeen(before, now);
      assert LiveKeys(EagerMap(before), now) == set k | k in EagerMap(before) && Visible(EagerMap(before)[k], now);
    case _ =>
  }

  predicate IsRead<K, V>(c: Call<K, V>) {
    c.Get? || c.Has? || c.Size?
  }

  /** A read leaves the reference as it is, so every other answer stays. */
  lemma {:induction false} ReadsLeaveReference<K, V>(m: map<K, Entry<V>>, a: seq<Timed<K, V>>, r: Timed<K, V>,
                                                     b: seq<Timed<K, V>>)
    requires IsRead(r.call)
    ensures EagerRun(m, a + [r] + b)[..|a|] == EagerRun(m, a + b)[..|a|]
    ensures EagerRun(m, a + [r] + b)[|a| + 1..] == EagerRun(m, a + b)[|a|..]
    decreases |a|
  {
    if a == [] {
      assert a + b == b && (a + [r] + b)[0] == r && (a + [r] + b)[1..] == b;
    } else {
      assert (a + [r] + b)[1..] == a[1..] + [r] + b && (a + b)[1..] == a[1..] + b;
      var next, x := EagerStep(m, a[0]).0, EagerStep(m, a[0]).1;
      ReadsLeaveReference(next, a[1..], r, b);
      SameBehindFirst(x, EagerRun(next, a[1..] + [r] + b), EagerRun(next, a[1..] + b), |a| - 1);
    }
  }

  lemma {:induction false} SameBehindFirst<T>(x: T, p: seq<T>, q: seq<T>, n: nat)
    requires n < |p| && n <= |q| && p[..n] == q[..n] && p[n + 1..] == q[n..]
    ensures ([x] + p)[..n + 1] == ([x] + q)[..n + 1] && ([x] + p)[n + 2..] == ([x] + q)[n + 1..]
  {
    assert ([x] + p)[..n + 1] == [x] + p[..n] && ([x] + q)[..n + 1] == [x] + q[..n];
    assert ([x] + p)[n + 2..] == p[n + 1..] && ([x] + q)[n + 1..] == q[n..];
  }

  /** An extra read anywhere in a run changes no other answer. */
  lemma {:induction false} ReadsChangeNothing<K, V>(a: seq<Timed<K, V>>, r: Timed<K, V>, b: seq<Timed<K, V>>)
    requires IsRead(r.call) && Monotone(a + [r] + b)
    ensures var with, without := LazyRun(map[], a + [r] + b), LazyRun(map[], a + b);
      with[..|a|] == without[..|a|] && with[|a| + 1..] == without[|a|..]
  {
    var c, d := a + [r] + b, a + b;
    assert forall i :: 0 <= i < |d| ==> d[i] == c[if i < |a| then i else i + 1];
    LazyIsEager(c);
    LazyIsEager(d);
    ReadsLeaveReference(map[], a, r, b);
  }

  // ---------- clocks that run back ----------

  function Readings<K, V>(cs: seq<Timed<K, V>>): seq<real> {
    seq(|cs|, i requires 0 <= i < |cs| => cs[i].now)
  }

  /** No run that sees these clock readings tells lazy purging from none. */
  ghost predicate NobodyCanTell<K(!new), V(!new)>(ts: seq<real>) {
    forall cs: seq<Timed<K, V>> :: Readings(cs) == ts ==> LazyRun(map[], cs) == EagerRun(map[], cs)
  }

  predicate RisesFromSecond(ts: seq<real>) {
    forall i, j :: 1 <= i < j < |ts| ==> ts[i] <= ts[j]
  }

  function Gets<K, V>(k: K, ts: seq<real>): seq<Timed<K, V>> {
    seq(|ts|, i requires 0 <= i < |ts| => Timed(Call.Get(k), ts[i]))
  }

  lemma {:induction false} GetsStep<K, V>(k: K, ts: seq<real>)
    requires ts != []
    ensures Gets<K, V>(k, ts)[0] == Timed(Call.Get(k), ts[0]) && Gets<K, V>(k, ts)[1..] == Gets<K, V>(k, ts[1..])
  {
  }

  lemma {:induction false} EagerGets<K, V>(k: K, v: V, e: real, ts: seq<real>, j: nat)
    requires j < |ts|
    ensures EagerRun(map[k := Entry(v, Until(e))], Gets(k, ts))[j] == if ts[j] < e then Value(v) else Undefined
    decreases |ts|
  {
    GetsStep<K, V>(k, ts);
    if j > 0 {
      EagerGets(k, v, e, ts[1..], j - 1);
    }
  }

  /** A key that is gone stays gone. */
  lemma {:induction false} GoneStays<K, V>(m: map<K, Entry<V>>, k: K, ts: seq<real>, j: nat)
    requires k !in m && j < |ts|
    ensures LazyRun(m, Gets(k, ts))[j] == Undefined
    decreases |ts|
  {
    GetsStep<K, V>(k, ts);
    if j > 0 {
      GoneStays(m, k, ts[1..], j - 1);
    }
  }

  lemma {:induction false} LazyGets<K, V>(k: K, v: V, e: real, ts: seq<real>, i: nat, j: nat)
    requires i < j < |ts| && e <= ts[i]
    ensures LazyRun(map[k := Entry(v, Until(e))], Gets(k, ts))[j] == Undefined
    decreases |ts|
  {
    var m := map[k := Entry(v, Until(e))];
    GetsStep<K, V>(k, ts);
    if e <= ts[0] {
      GoneStays(m - {k}, k, ts[1..], j - 1);
    } else {
      LazyGets(k, v, e, ts[1..], i - 1, j - 1);
    }
  }

  lemma {:induction false} FirstCall<K, V>(m: map<K, Entry<V>>, c: Timed<K, V>, cs: seq<Timed<K, V>>)
    ensures LazyRun(m, [c] + cs) == [LazyStep(m, c).1] + LazyRun(LazyStep(m, c).0, cs)
    ensures EagerRun(m, [c] + cs) == [EagerStep(m, c).1] + EagerRun(EagerStep(m, c).0, cs)
  {
    assert ([c] + cs)[0] == c && ([c] + cs)[1..] == cs;
  }

  /** An entry that expires at the later reading is gone at the earlier one that comes after it. */
  lemma {:induction false} RunningBackTells<K(!new), V(!new)>(ts: seq<real>, k: K, v: V, i: nat, j: nat)
    requires 1 <= i < j < |ts| && ts[j] < ts[i]
    ensures !NobodyCanTell<K, V>(ts)
  {
    var first: Timed<K, V> := Timed(Call.Set(k, v, Ms(ts[i] - ts[0])), ts[0]);
    var gets: seq<Timed<K, V>> := Gets(k, ts[1..]);
    var cs := [first] + gets;
    var m: map<K, Entry<V>> := map[k := Entry(v, Until(ts[i]))];
    assert LazyStep(map[], first).0 == m && EagerStep(map[], first).0 == m;
    FirstCall(map[], first, gets);
    LazyGets(k, v, ts[i], ts[1..], i - 1, j - 1);
    EagerGets(k, v, ts[i], ts[1..], j - 1);
    assert LazyRun(map[], cs)[j] == Undefined && EagerRun(map[], cs)[j] == Value(v);
    assert Readings(cs) == ts;
  }

  /** The first reading may be anything: there is nothing to purge yet. */
  lemma {:induction false} RisingRunsAgree<K, V>(cs: seq<Timed<K, V>>)
    requires RisesFromSecond(Readings(cs))
    ensures LazyRun(map[], cs) == EagerRun(map[], cs)
  {
    if cs != [] {
      var m := LazyStep(map[], cs[0]).0;
      assert m == EagerStep(map[], cs[0]).0;
      assert LazyStep(map[], cs[0]).1 == EagerStep(map[], cs[0]).1 by {
        StepsAgree(map[], map[], cs[0]);
      }
      var ts := Readings(cs);
      forall i, j | 0 <= i < j < |cs[1..]| ensures cs[1..][i].now <= cs[1..][j].now {
        assert ts[i + 1] <= ts[j + 1];
      }
      RunsAgree(m, m, cs[1..]);
    }
  }

  /** Lazy purging can be told from none exactly if, from the second reading on, the clock runs back. */
  lemma {:induction false} ClockMustNotRunBack<K(!new), V(!new)>(ts: seq<real>, k: K, v: V)
    ensures NobodyCanTell<K, V>(ts) <==> RisesFromSecond(ts)
  {
    if RisesFromSecond(ts) {
      forall cs: seq<Timed<K, V>> | Readings(cs) == ts ensures LazyRun(map[], cs) == EagerRun(map[], cs) {
        RisingRunsAgree(cs);
      }
    } else {
      var i, j :| 1 <= i < j < |ts| && ts[j] < ts[i];
      RunningBackTells(ts, k, v, i, j);
    }
  }
}
