// Verifying API tokens through a positive cache, and recording when they were last used.

module TokenAuth {
  import opened Domain

  datatype Token = Token(userId: string, hash: string, revokedAt: Option<Time>, expiresAt: Option<Time>)

  datatype Entry = Entry(token: Token, exp: Time)

  datatype Write = Write(id: string, at: Time)

  datatype Outcome = Accepted | Unauthorized | Revoked

  const TOUCH_INTERVAL: Time := 60_000_000
  const CACHE_SWEEP := 4096
  const TOUCH_SWEEP := 8192

  // store is the token table; writes lists every last-used write sent to it, oldest first.
  datatype State = State(
    store: map<string, Token>, cache: map<string, Entry>, lastTouch: map<string, Time>, writes: seq<Write>, clock: Time)

  // A verification reads the clock three times: at the cache, at the expiry check, and when filling the cache.
  datatype Event =
    | Verify(id: string, hash: string, t1: Time, t2: Time, t3: Time)
    | Create(id: string, token: Token, t: Time)
    | Revoke(id: string, userId: string, t: Time)
    | Reset(t: Time)

  // ---- the pieces of a verification, in the order the code performs them ----

  function CacheGet(cache: map<string, Entry>, id: string, t: Time): (r: (Option<Token>, map<string, Entry>))
    ensures r.1.Keys <= cache.Keys && forall k :: k in r.1 ==> r.1[k] == cache[k]
  {
    if id !in cache then (None, cache)
    else if t >= cache[id].exp then (None, cache - {id})
    else (Some(cache[id].token), cache)
  }

  function CachePut(cache: map<string, Entry>, id: string, token: Token, t: Time, ttl: Time): map<string, Entry> {
    var swept := if |cache| >= CACHE_SWEEP then map k | k in cache && t < cache[k].exp :: cache[k] else cache;
    swept[id := Entry(token, t + ttl)]
  }

  predicate TouchDue(lastTouch: map<string, Time>, id: string, t: Time) {
    id !in lastTouch || t - lastTouch[id] >= TOUCH_INTERVAL
  }

  function NoteTouch(lastTouch: map<string, Time>, id: string, t: Time): map<string, Time> {
    var noted := lastTouch[id := t];
    if |noted| > TOUCH_SWEEP then map k | k in noted && t - noted[k] < TOUCH_INTERVAL :: noted[k] else noted
  }

  function Touch(s: State, id: string, t: Time): State {
    if !TouchDue(s.lastTouch, id, t) then s
    else s.(lastTouch := NoteTouch(s.lastTouch, id, t), writes := s.writes + [Write(id, t)])
  }

  function VerifyToken(s: State, id: string, hash: string, t1: Time, t2: Time, t3: Time, ttl: Time): (Outcome, State) {
    var (hit, cache) := CacheGet(s.cache, id, t1);
    var s1 := s.(cache := cache, clock := t3);
    var found := if hit.Some? then hit else if id in s.store then Some(s.store[id]) else None;
    if found.None? then (Unauthorized, s1)
    else
      var token := found.value;
      if token.hash != hash then (Unauthorized, s1)
      else if token.revokedAt.Some? then (Revoked, s1)
      else if token.expiresAt.Some? && t2 >= token.expiresAt.value then (Unauthorized, s1)
      else
        var s2 := if hit.None? then s1.(cache := CachePut(s1.cache, id, token, t3, ttl)) else s1;
        (Accepted, Touch(s2, id, t2))
  }

  // The same, as the authenticator does it to its own fields.
  class Authenticator {
    var cache: map<string, Entry>
    var lastTouch: map<string, Time>
    var store: map<string, Token>
    ghost var writes: seq<Write>
    ghost var clock: Time
    const ttl: Time

    ghost function Now(): State
      reads this
    {
      State(store, cache, lastTouch, writes, clock)
    }

    constructor (ttl: Time)
      ensures this.ttl == ttl && cache == map[] && lastTouch == map[] && store == map[] && writes == [] && clock == 0
    {
      this.ttl := ttl;
      cache, lastTouch, store, writes, clock := map[], map[], map[], [], 0;
    }

    method VerifySecret(id: string, hash: string, t1: Time, t2: Time, t3: Time) returns (r: Outcome)
      modifies this
      ensures (r, Now()) == VerifyToken(old(Now()), id, hash, t1, t2, t3, ttl)
    {
      var cached, token := Get(id, t1);
      clock := t3;
      if !cached {
        if id !in store {
          return Unauthorized;
        }
        token := store[id];
      }
      if token.hash != hash {
        return Unauthorized;
      }
      if token.revokedAt.Some? {
        return Revoked;
      }
      if token.expiresAt.Some? && t2 >= token.expiresAt.value {
        return Unauthorized;
      }
      if !cached {
        Put(id, token, t3);
      }
      NoteUse(id, t2);
      return Accepted;
    }

    method Get(id: string, t: Time) returns (cached: bool, token: Token)
      modifies `cache
      ensures cache == CacheGet(old(cache), id, t).1
      ensures cached <==> CacheGet(old(cache), id, t).0.Some?
      ensures cached ==> token == CacheGet(old(cache), id, t).0.value
      ensures cached <==> id in old(cache) && t < old(cache)[id].exp
      ensures cached ==> token == old(cache)[id].token && cache == old(cache)
      ensures !cached ==> cache == old(cache) - {id}
    {
      token := Token("", "", None, None);
      if id !in cache {
        return false, token;
      }
      if t >= cache[id].exp {
        cache := cache - {id};
        return false, token;
      }
      return true, cache[id].token;
    }

    method Put(id: string, token: Token, t: Time)
      modifies `cache
      ensures cache == CachePut(old(cache), id, token, t, ttl)
      ensures id in cache && cache[id] == Entry(token, t + ttl)
      ensures forall k :: k in old(cache) && k != id && t < old(cache)[k].exp ==> k in cache
      ensures forall k :: k in cache && k != id ==> k in old(cache) && cache[k] == old(cache)[k]
    {
      if |cache| >= CACHE_SWEEP {
        var rest := cache.Keys;
        ghost var start := cache;
        while rest != {}
          invariant rest <= start.Keys
          invariant cache == map k | k in start && (k in rest || t < start[k].exp) :: start[k]
          decreases rest
        {
          var k :| k in rest;
          if t >= cache[k].exp {
            cache := cache - {k};
          }
          rest := rest - {k};
        }
      }
      cache := cache[id := Entry(token, t + ttl)];
    }

    method NoteUse(id: string, t: Time)
      modifies `lastTouch, `writes
      ensures Now() == Touch(old(Now()), id, t)
    {
      if id in lastTouch && t - lastTouch[id] < TOUCH_INTERVAL {
        return;
      }
      lastTouch := lastTouch[id := t];
      if |lastTouch| > TOUCH_SWEEP {
        var rest := lastTouch.Keys;
        ghost var start := lastTouch;
        while rest != {}
          invariant rest <= start.Keys
          invariant lastTouch == map k | k in start && (k in rest || t - start[k] < TOUCH_INTERVAL) :: start[k]
          invariant writes == old(writes)
          decreases rest
        {
          var k :| k in rest;
          if t - lastTouch[k] >= TOUCH_INTERVAL {
            lastTouch := lastTouch - {k};
          }
          rest := rest - {k};
        }
      }
      writes := writes + [Write(id, t)];
    }
  }

  // ---- runs ----

  ghost predicate EventOk(s: State, e: Event) {
    match e
    case Verify(_, _, t1, t2, t3) => s.clock <= t1 <= t2 <= t3
    case Create(id, token, t) => s.clock <= t && id !in s.store && token.revokedAt.None?
    case Revoke(_, _, t) => s.clock <= t
    case Reset(t) => s.clock <= t
  }

  function Next(s: State, e: Event, ttl: Time): State {
    match e
    case Verify(id, hash, t1, t2, t3) => VerifyToken(s, id, hash, t1, t2, t3, ttl).1
    case Create(id, token, t) => s.(store := s.store[id := token], clock := t)
    case Revoke(id, userId, t) =>
      if id in s.store && s.store[id].userId == userId && s.store[id].revokedAt.None?
      then s.(store := s.store[id := s.store[id].(revokedAt := Some(t))], clock := t) else s.(clock := t)
    case Reset(t) => s.(cache := map[], clock := t)
  }

  // A cached entry is a copy of its row from before any revocation, and dies with the TTL that began then.
  ghost predicate EntryOk(s: State, id: string, e: Entry, ttl: Time) {
    && id in s.store
    && e.token == s.store[id].(revokedAt := None)
    && e.exp <= s.clock + ttl
    && (s.store[id].revokedAt.Some? ==> e.exp <= s.store[id].revokedAt.value + ttl)
  }

  // The latest write of a token is the one lastTouch remembers, unless it is at least an interval old.
  ghost predicate TouchOk(s: State, w: Write) {
    && w.at <= s.clock
    && (s.clock - w.at < TOUCH_INTERVAL ==> w.id in s.lastTouch && s.lastTouch[w.id] >= w.at)
  }

  ghost predicate Spaced(writes: seq<Write>) {
    forall i, j :: 0 <= i < j < |writes| && writes[i].id == writes[j].id ==>
      writes[j].at - writes[i].at >= TOUCH_INTERVAL
  }

  ghost predicate CacheOk(s: State, ttl: Time) { forall id :: id in s.cache ==> EntryOk(s, id, s.cache[id], ttl) }

  // What is remembered as the last use of a token was written as such.
  ghost predicate AllRemembered(s: State) {
    forall id :: id in s.lastTouch ==> Write(id, s.lastTouch[id]) in s.writes
  }

  ghost predicate TouchesOk(s: State) {
    && AllRemembered(s)
    && (forall i :: 0 <= i < |s.writes| ==> TouchOk(s, s.writes[i]))
    && (forall id :: id in s.lastTouch ==> s.lastTouch[id] <= s.clock)
    && Spaced(s.writes)
  }

  ghost predicate Inv(s: State, ttl: Time) { CacheOk(s, ttl) && TouchesOk(s) }

  // What a verification may leave in the cache: entries that were there, or a fresh copy of an unrevoked row.
  lemma VerifyCaches(s: State, id: string, hash: string, t1: Time, t2: Time, t3: Time, ttl: Time, k: string)
    requires k in VerifyToken(s, id, hash, t1, t2, t3, ttl).1.cache
    ensures var e := VerifyToken(s, id, hash, t1, t2, t3, ttl).1.cache[k];
            (k in s.cache && e == s.cache[k])
            || (k == id && id in s.store && s.store[id].revokedAt.None? && e == Entry(s.store[id], t3 + ttl))
  {
  }

  lemma VerifyKeepsStore(s: State, id: string, hash: string, t1: Time, t2: Time, t3: Time, ttl: Time)
    ensures var t := VerifyToken(s, id, hash, t1, t2, t3, ttl).1; t.store == s.store && t.clock == t3
    ensures var t := VerifyToken(s, id, hash, t1, t2, t3, ttl).1;
            (t.writes == s.writes && t.lastTouch == s.lastTouch)
            || (t.writes == Touch(s.(clock := t3), id, t2).writes
                && t.lastTouch == Touch(s.(clock := t3), id, t2).lastTouch)
  {
    hide NoteTouch, TouchDue, CacheGet, CachePut;
  }

  lemma CacheStaysSound(s: State, e: Event, ttl: Time)
    requires ttl >= 0 && Inv(s, ttl) && EventOk(s, e)
    ensures CacheOk(Next(s, e, ttl), ttl)
  {
    hide VerifyToken;
    var t := Next(s, e, ttl);
    if e.Verify? {
      VerifyKeepsStore(s, e.id, e.hash, e.t1, e.t2, e.t3, ttl);
    }
    forall id | id in t.cache ensures EntryOk(t, id, t.cache[id], ttl) {
      if e.Verify? {
        VerifyCaches(s, e.id, e.hash, e.t1, e.t2, e.t3, ttl, id);
      }
      if id in s.cache && t.cache[id] == s.cache[id] {
        assert EntryOk(s, id, s.cache[id], ttl);
      }
    }
  }

  lemma TouchStaysSound(s: State, id: string, t: Time, clock: Time)
    requires TouchesOk(s) && s.clock <= t <= clock
    ensures TouchesOk(Touch(s.(clock := clock), id, t))
  {
    TouchRemembers(s, id, t, clock);
    TouchesNoted(s, id, t, clock);
    hide AllRemembered, TouchOk;
    var u := Touch(s.(clock := clock), id, t);
    if u.writes != s.writes {
      forall i | 0 <= i < |s.writes| && s.writes[i].id == id ensures t - s.writes[i].at >= TOUCH_INTERVAL {
        WriteIsOld(s, i, id, t);
      }
    }
  }

  lemma WriteIsOld(s: State, i: nat, id: string, t: Time)
    requires TouchesOk(s) && s.clock <= t && i < |s.writes| && s.writes[i].id == id && TouchDue(s.lastTouch, id, t)
    ensures t - s.writes[i].at >= TOUCH_INTERVAL
  {
    assert TouchOk(s, s.writes[i]);
  }

  lemma TouchesNoted(s: State, id: string, t: Time, clock: Time)
    requires TouchesOk(s) && s.clock <= t <= clock
    ensures var u := Touch(s.(clock := clock), id, t); forall i :: 0 <= i < |u.writes| ==> TouchOk(u, u.writes[i])
  {
    hide AllRemembered, Spaced;
    var u := Touch(s.(clock := clock), id, t);
    forall i | 0 <= i < |u.writes| ensures TouchOk(u, u.writes[i]) {
      if i < |s.writes| {
        assert TouchOk(s, s.writes[i]);
      }
    }
  }

  lemma TouchRemembers(s: State, id: string, t: Time, clock: Time)
    requires AllRemembered(s)
    ensures AllRemembered(Touch(s.(clock := clock), id, t))
  {
    var u := Touch(s.(clock := clock), id, t);
    forall k | k in u.lastTouch ensures Write(k, u.lastTouch[k]) in u.writes {
      if u.writes != s.writes && k == id {
        assert u.writes[|u.writes| - 1] == Write(id, t);
      } else {
        assert Write(k, s.lastTouch[k]) in s.writes;
      }
    }
  }

  // Nothing but time passing keeps the record of touches sound, and it does not matter what else the state holds.
  lemma LaterStaysSound(s: State, t: State)
    requires TouchesOk(s) && s.clock <= t.clock && t.writes == s.writes && t.lastTouch == s.lastTouch
    ensures TouchesOk(t)
  {
    forall i | 0 <= i < |t.writes| ensures TouchOk(t, t.writes[i]) {
      assert TouchOk(s, s.writes[i]);
    }
  }

  // Every event keeps the invariant.
  lemma NextPreservesInv(s: State, e: Event, ttl: Time)
    requires ttl >= 0 && Inv(s, ttl) && EventOk(s, e)
    ensures Inv(Next(s, e, ttl), ttl)
  {
    CacheStaysSound(s, e, ttl);
    hide VerifyToken, CacheOk, TouchesOk, Touch;
    var t := Next(s, e, ttl);
    if e.Verify? {
      VerifyKeepsStore(s, e.id, e.hash, e.t1, e.t2, e.t3, ttl);
      TouchStaysSound(s, e.id, e.t2, e.t3);
      var touched := Touch(s.(clock := e.t3), e.id, e.t2);
      assert touched.clock == t.clock by { TouchKeepsClock(s.(clock := e.t3), e.id, e.t2); }
      if t.writes == s.writes && t.lastTouch == s.lastTouch {
        LaterStaysSound(s, t);
      } else {
        LaterStaysSound(touched, t);
      }
    } else {
      LaterStaysSound(s, t);
    }
  }

  lemma TouchKeepsClock(s: State, id: string, t: Time)
    ensures Touch(s, id, t).clock == s.clock
  {
  }

  ghost predicate Run(states: seq<State>, events: seq<Event>, ttl: Time) {
    && |states| == |events| + 1
    && states[0].cache == map[] && states[0].lastTouch == map[] && states[0].writes == []
    && forall i {:trigger events[i]} :: 0 <= i < |events| ==>
         EventOk(states[i], events[i]) && states[i + 1] == Next(states[i], events[i], ttl)
  }

  lemma {:induction false} RunPreservesInv(states: seq<State>, events: seq<Event>, ttl: Time, n: nat)
    requires ttl >= 0 && Run(states, events, ttl) && n < |states|
    ensures Inv(states[n], ttl)
    decreases n
  {
    if n > 0 {
      RunPreservesInv(states, events, ttl, n - 1);
      assert EventOk(states[n - 1], events[n - 1]);
      NextPreservesInv(states[n - 1], events[n - 1], ttl);
    }
  }

  // ---- what a caller can rely on ----

  ghost function OutcomeOf(s: State, e: Event, ttl: Time): Outcome
    requires e.Verify?
  {
    VerifyToken(s, e.id, e.hash, e.t1, e.t2, e.t3, ttl).0
  }

  // A token is accepted exactly when it exists, the hash matches, it has not expired, and it is unrevoked or
  // still cached from before its revocation.
  lemma AcceptedExactlyWhen(s: State, e: Event, ttl: Time)
    requires Inv(s, ttl) && e.Verify?
    ensures OutcomeOf(s, e, ttl) == Accepted
            <==> e.id in s.store && s.store[e.id].hash == e.hash
                 && (s.store[e.id].expiresAt.Some? ==> e.t2 < s.store[e.id].expiresAt.value)
                 && (s.store[e.id].revokedAt.None? || (e.id in s.cache && e.t1 < s.cache[e.id].exp))
  {
    if e.id in s.cache {
      assert EntryOk(s, e.id, s.cache[e.id], ttl);
    }
  }

  // Revocation takes effect within one TTL, in every run: hits never extend an entry.
  lemma RevocationIsBounded(states: seq<State>, events: seq<Event>, ttl: Time, n: nat)
    requires ttl >= 0 && Run(states, events, ttl) && n < |events| && events[n].Verify?
    requires events[n].id in states[n].store && states[n].store[events[n].id].revokedAt.Some?
    requires events[n].t1 >= states[n].store[events[n].id].revokedAt.value + ttl
    ensures OutcomeOf(states[n], events[n], ttl) != Accepted
  {
    RunPreservesInv(states, events, ttl, n);
    AcceptedExactlyWhen(states[n], events[n], ttl);
    if events[n].id in states[n].cache {
      assert EntryOk(states[n], events[n].id, states[n].cache[events[n].id], ttl);
    }
  }

  // An expired token is refused even while a copy of it is cached.
  lemma ExpiredIsRefused(states: seq<State>, events: seq<Event>, ttl: Time, n: nat)
    requires ttl >= 0 && Run(states, events, ttl) && n < |events| && events[n].Verify?
    requires events[n].id in states[n].store && states[n].store[events[n].id].expiresAt.Some?
    requires events[n].t2 >= states[n].store[events[n].id].expiresAt.value
    ensures OutcomeOf(states[n], events[n], ttl) != Accepted
  {
    RunPreservesInv(states, events, ttl, n);
    AcceptedExactlyWhen(states[n], events[n], ttl);
  }

  // Last-used writes of one token are never closer than the touch interval, although old entries are swept.
  lemma TouchesAreSpaced(states: seq<State>, events: seq<Event>, ttl: Time, n: nat, i: nat, j: nat)
    requires ttl >= 0 && Run(states, events, ttl) && n < |states| && i < j < |states[n].writes|
    requires states[n].writes[i].id == states[n].writes[j].id
    ensures states[n].writes[j].at - states[n].writes[i].at >= TOUCH_INTERVAL
  {
    RunPreservesInv(states, events, ttl, n);
  }

  // Which refusal: a token that was looked up, whose hash matches and that was revoked is called revoked, and every
  // other refusal says no more than "unauthorized".
  lemma RevokedExactlyWhen(s: State, e: Event, ttl: Time)
    requires Inv(s, ttl) && e.Verify?
    ensures OutcomeOf(s, e, ttl) == Revoked
            <==> !(e.id in s.cache && e.t1 < s.cache[e.id].exp)
                 && e.id in s.store && s.store[e.id].hash == e.hash && s.store[e.id].revokedAt.Some?
  {
    if e.id in s.cache {
      assert EntryOk(s, e.id, s.cache[e.id], ttl);
    }
  }

  // An accepted token is cached afterwards: for one TTL from now if it was looked up, and until its old expiry if not.
  lemma AcceptedIsCached(s: State, e: Event, ttl: Time)
    requires e.Verify? && OutcomeOf(s, e, ttl) == Accepted
    ensures e.id in Next(s, e, ttl).cache && Next(s, e, ttl).cache[e.id].token.hash == e.hash
    ensures Next(s, e, ttl).cache[e.id].exp
            == if e.id in s.cache && e.t1 < s.cache[e.id].exp then s.cache[e.id].exp else e.t3 + ttl
  {
  }

  // In every run, an accepted verification is written as a use of its token exactly when no use of it within the last
  // minute was, and a refused one never is.
  lemma UseIsWrittenWhenDue(states: seq<State>, events: seq<Event>, ttl: Time, n: nat)
    requires ttl >= 0 && Run(states, events, ttl) && n < |events| && events[n].Verify?
    ensures var e, writes := events[n], states[n].writes;
            states[n + 1].writes
            == if OutcomeOf(states[n], e, ttl) == Accepted
                  && forall i :: 0 <= i < |writes| && writes[i].id == e.id ==> e.t2 - writes[i].at >= 60_000_000
               then writes + [Write(e.id, e.t2)] else writes
  {
    RunPreservesInv(states, events, ttl, n);
    var s, e := states[n], events[n];
    assert EventOk(s, e) && states[n + 1] == Next(s, e, ttl);
    WrittenWhenAccepted(s, e, ttl);
    DueMeans(s, e.id, e.t2);
  }

  lemma WrittenWhenAccepted(s: State, e: Event, ttl: Time)
    requires e.Verify?
    ensures Next(s, e, ttl).writes
            == if OutcomeOf(s, e, ttl) == Accepted && TouchDue(s.lastTouch, e.id, e.t2)
               then s.writes + [Write(e.id, e.t2)] else s.writes
  {
    hide NoteTouch, TouchDue;
  }

  lemma DueMeans(s: State, id: string, t: Time)
    requires TouchesOk(s) && s.clock <= t
    ensures TouchDue(s.lastTouch, id, t)
            <==> forall i :: 0 <= i < |s.writes| && s.writes[i].id == id ==> t - s.writes[i].at >= 60_000_000
  {
    if id in s.lastTouch {
      assert Write(id, s.lastTouch[id]) in s.writes;
    }
    if TouchDue(s.lastTouch, id, t) {
      forall i | 0 <= i < |s.writes| && s.writes[i].id == id ensures t - s.writes[i].at >= 60_000_000 {
        assert TouchOk(s, s.writes[i]);
      }
    }
  }
}
