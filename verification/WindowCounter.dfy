/**
 * The counting idiom both throttles share: INCR, and EXPIRE after the first.
 * Each life of the counter starts at its first count and, whatever else
 * happens, cannot end before one whole window has passed.
 */
module WindowCounter {
  import opened Prelude
  import opened Redis

  /** One counted event: when, in which life of the counter, and the count it was told. */
  datatype Spend = Spend(at: nat, bornAt: nat, reply: nat)

  predicate Timely(s: Spend, now: nat) {
    s.bornAt <= s.at <= now && 1 <= s.reply && (s.reply == 1 ==> s.at == s.bornAt)
  }

  /** Two events of one life differ in count; lives do not overlap and last a window. */
  predicate Apart(s: Spend, t: Spend, window: nat) {
    && (s.bornAt == t.bornAt ==> s.reply != t.reply)
    && (s.bornAt < t.bornAt ==> s.at < t.bornAt && s.bornAt + window <= t.bornAt)
  }

  /** The counter as stored has seen this event, in this life or in an earlier one. */
  predicate SeenBy(s: Spend, e: Entry, window: nat) {
    && s.bornAt <= e.bornAt
    && (s.bornAt == e.bornAt ==> s.reply <= e.value && (e.expiresAt.Some? ==> s.at < e.expiresAt.value))
    && (s.bornAt < e.bornAt ==> s.at < e.bornAt && s.bornAt + window <= e.bornAt)
  }

  predicate Anchored(e: Entry, now: nat, window: nat) {
    && e.bornAt <= now
    && 1 <= e.value
    && (e.expiresAt.Some? ==> e.bornAt + window <= e.expiresAt.value)
  }

  ghost predicate Orderly(spends: map<nat, Spend>, db: Db, k: Key, window: nat) {
    && (forall c | c in spends :: Timely(spends[c], db.now))
    && (forall c, d | c in spends && d in spends && c != d :: Apart(spends[c], spends[d], window))
    && (k !in db.store ==> spends == map[])
    && (k in db.store ==> Anchored(db.store[k], db.now, window))
    && (k in db.store ==> forall c | c in spends :: SeenBy(spends[c], db.store[k], window))
  }

  /** A command that does to this counter only what the idiom does: count, or anchor for one window. */
  predicate Idiomatic(c: Command, k: Key, window: nat) {
    match c
    case Expire(key, ttl) => key == k ==> ttl == window
    case SetNxEx(key, _) => key != k
    case SetEx(key, _) => key != k
    case Del(keys) => k !in keys
    case _ => true
  }

  lemma IdiomaticKeepsOrder(spends: map<nat, Spend>, db: Db, c: Command, trip: Trip, k: Key, window: nat)
    requires Orderly(spends, db, k, window) && Idiomatic(c, k, window) && 1 <= window
    ensures Orderly(spends, Send(db, c, trip).0, k, window)
  {
    var later := Pass(db, trip.delay);
    assert Orderly(spends, later, k, window);
    var after := Execute(later, c).0;
    assert after.now == later.now;
    if k in later.store {
      assert k in after.store;
      if after.store[k] != later.store[k] && c.Incr? && !Holds(later, k) {
        forall d | d in spends ensures SeenBy(spends[d], after.store[k], window) {
          assert SeenBy(spends[d], later.store[k], window);
        }
      }
    }
  }

  /** An answered count joins the record in order. */
  lemma CountJoinsInOrder(spends: map<nat, Spend>, db: Db, trip: Trip, k: Key, window: nat, c: nat)
    requires Orderly(spends, db, k, window) && c !in spends
    requires trip.wire == Answered && 1 <= window
    ensures var (after, reply) := Send(db, Incr(k), trip);
            && reply.Some? && reply.value >= 1 && k in after.store
            && Orderly(spends[c := Spend(after.now, after.store[k].bornAt, reply.value)], after, k, window)
  {
    IdiomaticKeepsOrder(spends, db, Incr(k), trip, k, window);
    var later := Pass(db, trip.delay);
    assert Orderly(spends, later, k, window);
    var (after, reply) := Send(db, Incr(k), trip);
    var s := Spend(after.now, after.store[k].bornAt, reply.value);
    forall d | d in spends
      ensures Apart(spends[d], s, window) && Apart(s, spends[d], window)
    {
      assert SeenBy(spends[d], after.store[k], window);
      assert SeenBy(spends[d], later.store[k], window);
    }
  }

  /** The life `s` counted in lasted, or a later one began, no earlier than `until`. */
  predicate LastsUntil(until: nat, s: Spend, e: Entry) {
    && s.bornAt <= e.bornAt
    && (s.bornAt == e.bornAt ==> e.expiresAt.Some? && until <= e.expiresAt.value)
    && (s.bornAt < e.bornAt ==> until <= e.bornAt)
  }

  /** Anchoring only ever puts a lapse off, so a lapse once due no earlier than `until` stays so. */
  lemma IdiomaticKeepsLasting(until: nat, s: Spend, db: Db, c: Command, trip: Trip, k: Key, window: nat)
    requires Idiomatic(c, k, window) && k in db.store && LastsUntil(until, s, db.store[k])
    requires until <= db.now + window && Anchored(db.store[k], db.now, window) && 1 <= window
    ensures var after := Send(db, c, trip).0; k in after.store && LastsUntil(until, s, after.store[k])
  {
  }

  // ---- The quota ----

  /**
   * Events of an earlier life all come before the later one is born, and its
   * first event a whole window before.
   */
  predicate Separate(s: Spend, t: Spend, window: nat) {
    Apart(s, t, window) && (s.bornAt < t.bornAt && s.reply == 1 ==> s.at + window <= t.bornAt)
  }

  ghost predicate Spread(spends: map<nat, Spend>, window: nat) {
    && (forall c | c in spends :: spends[c].bornAt <= spends[c].at && 1 <= spends[c].reply)
    && (forall c, d | c in spends && d in spends && c != d :: Separate(spends[c], spends[d], window))
  }

  lemma OrderlyIsSpread(spends: map<nat, Spend>, db: Db, k: Key, window: nat)
    requires Orderly(spends, db, k, window)
    ensures Spread(spends, window)
  {
    forall c, d | c in spends && d in spends && c != d
      ensures Separate(spends[c], spends[d], window)
    {
      assert Timely(spends[c], db.now) && Apart(spends[c], spends[d], window);
    }
  }

  /** Three events of three different lives cannot fall inside one window. */
  lemma TwoLivesPerWindow(r: Spend, s: Spend, t: Spend, window: nat, from: nat)
    requires Apart(r, s, window) && Apart(s, r, window) && Apart(s, t, window)
    requires Apart(t, s, window) && Apart(r, t, window) && Apart(t, r, window)
    requires forall x | x in {r, s, t} :: x.bornAt <= x.at && from <= x.at < from + window
    ensures r.bornAt == s.bornAt || s.bornAt == t.bornAt || r.bornAt == t.bornAt
  {
    assert r in {r, s, t} && s in {r, s, t} && t in {r, s, t};
  }

  /** Of two lives that meet inside one window, the earlier one's first count lies before it. */
  lemma EarlierLifeIsCutShort(s: Spend, t: Spend, window: nat, from: nat)
    requires Separate(s, t, window) && s.bornAt < t.bornAt <= t.at && 1 <= s.reply
    requires from <= s.at && t.at < from + window
    ensures 2 <= s.reply
  {
  }

  ghost predicate InWindow(spends: map<nat, Spend>, chosen: set<nat>, window: nat, max: nat, from: nat) {
    && chosen <= spends.Keys
    && forall c | c in chosen :: from <= spends[c].at < from + window && spends[c].reply <= max
  }

  ghost predicate OneLife(spends: map<nat, Spend>, life: set<nat>, bornAt: nat)
    requires life <= spends.Keys
  {
    forall c | c in life :: spends[c].bornAt == bornAt
  }

  lemma OneLifeBound(spends: map<nat, Spend>, window: nat, life: set<nat>, bornAt: nat, lo: nat, max: nat)
    requires Spread(spends, window) && 1 <= lo <= max + 1
    requires life <= spends.Keys && OneLife(spends, life, bornAt)
    requires forall c | c in life :: lo <= spends[c].reply <= max
    ensures |life| <= max - lo + 1
  {
    var tag := map c | c in life :: spends[c].reply as int;
    forall c, d | c in life && d in life && c != d ensures tag[c] != tag[d] {
      assert Separate(spends[c], spends[d], window);
    }
    DistinctLabelsBound(life, tag, lo, max);
  }

  /** Events inside one window, sorted by the life they belong to: one life, or an earlier and a later one. */
  ghost predicate Split(spends: map<nat, Spend>, early: set<nat>, late: set<nat>) {
    && early <= spends.Keys && late <= spends.Keys
    && (forall c, d | c in early && d in early :: spends[c].bornAt == spends[d].bornAt)
    && (forall c, d | c in late && d in late :: spends[c].bornAt == spends[d].bornAt)
    && (forall c, d | c in early && d in late :: spends[c].bornAt < spends[d].bornAt)
    && (early != {} ==> late != {})
  }

  lemma AtMostTwoLives(
      spends: map<nat, Spend>, window: nat, max: nat, from: nat, chosen: set<nat>, p: nat, q: nat)
    requires Spread(spends, window) && InWindow(spends, chosen, window, max, from)
    requires p in chosen && q in chosen && spends[p].bornAt != spends[q].bornAt
    ensures forall c | c in chosen :: spends[c].bornAt == spends[p].bornAt || spends[c].bornAt == spends[q].bornAt
  {
    forall c | c in chosen
      ensures spends[c].bornAt == spends[p].bornAt || spends[c].bornAt == spends[q].bornAt
    {
      if c != p && c != q {
        assert Separate(spends[p], spends[q], window) && Separate(spends[q], spends[p], window);
        assert Separate(spends[p], spends[c], window) && Separate(spends[c], spends[p], window);
        assert Separate(spends[q], spends[c], window) && Separate(spends[c], spends[q], window);
        TwoLivesPerWindow(spends[p], spends[q], spends[c], window, from);
      }
    }
  }

  lemma SplitByLife(spends: map<nat, Spend>, window: nat, max: nat, from: nat, chosen: set<nat>)
    returns (early: set<nat>, late: set<nat>)
    requires Spread(spends, window) && InWindow(spends, chosen, window, max, from)
    ensures chosen == early + late && early !! late && Split(spends, early, late)
  {
    early, late := {}, chosen;
    if p, q :| p in chosen && q in chosen && spends[p].bornAt < spends[q].bornAt {
      AtMostTwoLives(spends, window, max, from, chosen, p, q);
      early := set c | c in chosen && spends[c].bornAt == spends[p].bornAt;
      late := chosen - early;
    }
  }

  /** Where two lives meet, the earlier one has no first count. */
  lemma EarlyCountsStartAtTwo(
      spends: map<nat, Spend>, window: nat, max: nat, from: nat, chosen: set<nat>, early: set<nat>, late: set<nat>)
    requires Spread(spends, window) && InWindow(spends, chosen, window, max, from)
    requires early <= chosen && late <= chosen && Split(spends, early, late)
    ensures forall c | c in early :: 2 <= spends[c].reply
  {
    forall c | c in early ensures 2 <= spends[c].reply {
      var d :| d in late;
      EarlierLifeIsCutShort(spends[c], spends[d], window, from);
    }
  }

  /** The counts of an earlier and a later life, when those of the earlier one stay below `top`. */
  lemma TwoLivesBound(
      spends: map<nat, Spend>, window: nat, max: nat, top: nat, from: nat, chosen: set<nat>,
      early: set<nat>, late: set<nat>)
    requires Spread(spends, window) && InWindow(spends, chosen, window, max, from) && 1 <= top <= max
    requires chosen == early + late && early !! late && Split(spends, early, late)
    requires forall c | c in early :: spends[c].reply <= top
    ensures |chosen| <= max + top - 1
  {
    EarlyCountsStartAtTwo(spends, window, max, from, chosen, early, late);
    if p :| p in early {
      OneLifeBound(spends, window, early, spends[p].bornAt, 2, top);
    }
    if q :| q in late {
      OneLifeBound(spends, window, late, spends[q].bornAt, 1, max);
    }
  }

  /**
   * At most `2 * max - 1` events with a count up to `max` fall inside any
   * half-open interval one window long.
   */
  lemma QuotaOverAnyWindow(spends: map<nat, Spend>, window: nat, max: nat, from: nat, chosen: set<nat>)
    requires Spread(spends, window) && 1 <= max
    requires InWindow(spends, chosen, window, max, from)
    ensures |chosen| <= 2 * max - 1
  {
    var early, late := SplitByLife(spends, window, max, from, chosen);
    TwoLivesBound(spends, window, max, max, from, chosen, early, late);
  }
}
