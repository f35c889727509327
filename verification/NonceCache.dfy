/**
 * The replay cache of peer authentication: which authenticated messages are let in, given the
 * receiver's clock readings, and when a message can be let in a second time.
 *
 * The clock, the body digest and the message authentication code are inputs: `now`, `bodyMatches`
 * and `macMatches`.
 */
module NonceCache {
  import opened Common

  const SKEW := 30
  const LIMIT := 8192

  type Key = (string, string)

  datatype Call = Call(now: int, known: bool, alias: string, nonce: string, bodyHash: string,
                       timestamp: Option<int>, bodyMatches: bool, macMatches: bool)

  function Abs(x: int): int {
    if x < 0 then -x else x
  }

  function Max(x: int, y: int): int {
    if x < y then y else x
  }

  // ---- the specification ----

  function KeyOf(call: Call): Key {
    (call.alias, call.nonce)
  }

  /** Everything that is checked before the cache is looked at. */
  predicate Passes(call: Call) {
    && call.known
    && |call.nonce| == 64
    && |call.bodyHash| == 64
    && call.timestamp.Some?
    && Abs(call.now - call.timestamp.value) <= SKEW
    && call.bodyMatches
    && call.macMatches
  }

  function Expiry(call: Call): int
    requires call.timestamp.Some?
  {
    Max(call.now, call.timestamp.value) + SKEW
  }

  function Purged(cache: map<Key, int>, now: int): map<Key, int> {
    map key | key in cache && now <= cache[key] :: cache[key]
  }

  predicate Accepts(cache: map<Key, int>, call: Call) {
    Passes(call) && KeyOf(call) !in Purged(cache, call.now) && |Purged(cache, call.now)| < LIMIT
  }

  function Next(cache: map<Key, int>, call: Call): map<Key, int> {
    if !Passes(call) then
      cache
    else if Accepts(cache, call) then
      Purged(cache, call.now)[KeyOf(call) := Expiry(call)]
    else
      Purged(cache, call.now)
  }

  /** The cache after a run of calls. */
  function After(cache: map<Key, int>, calls: seq<Call>): map<Key, int> {
    if calls == [] then cache else Next(After(cache, calls[..|calls| - 1]), calls[|calls| - 1])
  }

  /** Call `i` of a run from the empty cache is let in. */
  predicate AcceptedAt(calls: seq<Call>, i: nat)
    requires i < |calls|
  {
    Accepts(After(map[], calls[..i]), calls[i])
  }

  lemma AfterNext(cache: map<Key, int>, calls: seq<Call>, n: nat)
    requires n < |calls|
    ensures After(cache, calls[..n + 1]) == Next(After(cache, calls[..n]), calls[n])
  {
    assert calls[..n + 1][..n] == calls[..n];
  }

  // ---- the size of the cache ----

  lemma PurgedSize(cache: map<Key, int>, now: int)
    ensures |Purged(cache, now)| <= |cache|
  {
    var purged := Purged(cache, now);
    SubsetSize(purged.Keys, cache.Keys);
    assert |purged| == |purged.Keys| && |cache| == |cache.Keys|;
  }

  lemma NextSize(cache: map<Key, int>, call: Call)
    requires |cache| <= LIMIT
    ensures |Next(cache, call)| <= LIMIT
  {
    PurgedSize(cache, call.now);
    if Accepts(cache, call) {
      var purged := Purged(cache, call.now);
      var stored := purged[KeyOf(call) := Expiry(call)];
      assert stored.Keys == purged.Keys + {KeyOf(call)};
      assert |stored.Keys| == |purged.Keys| + 1;
      assert |stored| == |stored.Keys| && |purged| == |purged.Keys|;
    }
  }

  /** However many calls arrive, the cache never holds more than its limit. */
  lemma {:induction false} CacheStaysBounded(calls: seq<Call>)
    ensures |After(map[], calls)| <= LIMIT
  {
    if calls != [] {
      CacheStaysBounded(calls[..|calls| - 1]);
      NextSize(After(map[], calls[..|calls| - 1]), calls[|calls| - 1]);
    }
  }

  // ---- readings that never fall ----

  /**
   * Calls are listed in the order in which they hold the lock.  The clock is read before the lock is
   * taken, so a delayed call can bring an older reading even while the clock runs forward.
   */
  predicate ReadingsNeverFall(calls: seq<Call>) {
    forall i, j :: 0 <= i < j < |calls| ==> calls[i].now <= calls[j].now
  }

  predicate Remembers(cache: map<Key, int>, call: Call)
    requires call.timestamp.Some?
  {
    KeyOf(call) in cache && Expiry(call) <= cache[KeyOf(call)]
  }

  /** An accepted call is remembered for as long as the clock has not passed its expiry. */
  lemma {:induction false} RememberedUntilExpiry(calls: seq<Call>, i: nat, n: nat)
    requires ReadingsNeverFall(calls) && i < n <= |calls| && AcceptedAt(calls, i)
    ensures Expiry(calls[i]) < calls[n - 1].now || Remembers(After(map[], calls[..n]), calls[i])
    decreases n
  {
    AfterNext(map[], calls, n - 1);
    if i < n - 1 {
      RememberedUntilExpiry(calls, i, n - 1);
    }
  }

  /** While the timestamp of an accepted call still passes the skew test, no purge forgets it. */
  lemma RememberedWhileFresh(calls: seq<Call>, i: nat, n: nat, now: int)
    requires ReadingsNeverFall(calls) && i < n <= |calls| && AcceptedAt(calls, i)
    requires calls[n - 1].now <= now && Abs(now - calls[i].timestamp.value) <= SKEW
    ensures Remembers(Purged(After(map[], calls[..n]), now), calls[i])
  {
    RememberedUntilExpiry(calls, i, n);
  }

  /** Two accepted calls under one name and nonce lie further apart than the skew window. */
  lemma AcceptancesLieApart(calls: seq<Call>, i: nat, j: nat)
    requires ReadingsNeverFall(calls) && i < j < |calls|
    requires AcceptedAt(calls, i) && AcceptedAt(calls, j) && KeyOf(calls[i]) == KeyOf(calls[j])
    ensures Expiry(calls[i]) < calls[j].now
  {
    RememberedUntilExpiry(calls, i, j);
  }

  /** No message (name, nonce and timestamp) is accepted twice. */
  lemma NoMessageAcceptedTwice(calls: seq<Call>, i: nat, j: nat)
    requires ReadingsNeverFall(calls) && i < j < |calls|
    requires AcceptedAt(calls, i) && AcceptedAt(calls, j)
    ensures KeyOf(calls[i]) != KeyOf(calls[j]) || calls[i].timestamp != calls[j].timestamp
  {
    if KeyOf(calls[i]) == KeyOf(calls[j]) {
      AcceptancesLieApart(calls, i, j);
    }
  }

  // ---- any clock: exactly when a message is accepted again ----

  /** Some call got as far as the purge with a clock past `expiry`. */
  predicate Overtaken(calls: seq<Call>, expiry: int) {
    exists k :: 0 <= k < |calls| && Passes(calls[k]) && expiry < calls[k].now
  }

  /** No call of the run is let in under `key`. */
  predicate NeverAccepts(cache: map<Key, int>, calls: seq<Call>, key: Key) {
    if calls == [] then true else
      var front, last := calls[..|calls| - 1], calls[|calls| - 1];
      NeverAccepts(cache, front, key) && (KeyOf(last) == key ==> !Accepts(After(cache, front), last))
  }

  /** An entry that is not stored anew stays, with its expiry, exactly until it is overtaken. */
  lemma {:induction false} EntryStaysUntilOvertaken(cache: map<Key, int>, calls: seq<Call>, key: Key)
    requires key in cache && NeverAccepts(cache, calls, key)
    ensures key in After(cache, calls) <==> !Overtaken(calls, cache[key])
    ensures key in After(cache, calls) ==> After(cache, calls)[key] == cache[key]
  {
    if calls != [] {
      var n := |calls| - 1;
      EntryStaysUntilOvertaken(cache, calls[..n], key);
      OvertakenLast(calls, cache[key]);
    }
  }

  lemma OvertakenLast(calls: seq<Call>, expiry: int)
    requires calls != []
    ensures var last := calls[|calls| - 1];
      Overtaken(calls, expiry) <==>
      Overtaken(calls[..|calls| - 1], expiry) || (Passes(last) && expiry < last.now)
  {
    var front := calls[..|calls| - 1];
    assert forall k :: 0 <= k < |front| ==> front[k] == calls[k];
  }

  /**
   * After `first` is accepted and none of the calls `between` stores its key anew, a later call
   * under the same key that passes the checks is accepted exactly when some reading of the clock has
   * overtaken the first one's expiry and the cache has room.
   */
  lemma AcceptedAgainExactlyWhen(cache: map<Key, int>, first: Call, between: seq<Call>, again: Call)
    requires Accepts(cache, first) && Passes(again) && KeyOf(again) == KeyOf(first)
    requires NeverAccepts(Next(cache, first), between, KeyOf(first))
    ensures var seen := After(Next(cache, first), between);
      Accepts(seen, again) <==>
      Overtaken(between + [again], Expiry(first)) && |Purged(seen, again.now)| < LIMIT
  {
    EntryStaysUntilOvertaken(Next(cache, first), between, KeyOf(first));
    OvertakenLast(between + [again], Expiry(first));
    assert (between + [again])[..|between|] == between;
  }

  /** So the very same message is let in again only after a higher reading than its own. */
  lemma ReplayNeedsFallingReadings(cache: map<Key, int>, first: Call, between: seq<Call>, again: Call)
    requires Accepts(cache, first) && NeverAccepts(Next(cache, first), between, KeyOf(first))
    requires KeyOf(again) == KeyOf(first) && again.timestamp == first.timestamp
    requires Accepts(After(Next(cache, first), between), again)
    ensures exists k :: 0 <= k < |between| && Passes(between[k]) && again.now < between[k].now
  {
    AcceptedAgainExactlyWhen(cache, first, between, again);
    OvertakenLast(between + [again], Expiry(first));
    assert (between + [again])[..|between|] == between;
    var k :| 0 <= k < |between| && Passes(between[k]) && Expiry(first) < between[k].now;
  }

  /** One second back is enough: accepted at 100, purged at 131, accepted again at 130. */
  lemma OneSecondBackAdmitsReplay(message: Call, other: Call)
    requires message.now == 100 && message.timestamp == Some(100) && Passes(message)
    requires other.now == 131 && Passes(other) && KeyOf(other) != KeyOf(message)
    ensures var calls := [message, other, message.(now := 130)];
      AcceptedAt(calls, 0) && AcceptedAt(calls, 2)
  {
    var calls := [message, other, message.(now := 130)];
    assert calls[..0] == [] && calls[..1] == [message] && calls[..2] == [message, other];
    assert [message][..0] == [] && [message, other][..1] == [message];
    var first := Next(map[], message);
    assert first == map[KeyOf(message) := 130];
    assert Purged(first, 131) == map[];
    var second := Next(first, other);
    assert second == map[KeyOf(other) := Expiry(other)];
    PurgedSize(second, 130);
    assert |second| == 1;
  }

  // ---- which calls are let in, told by the calls alone ----

  /** What a call must show before anything is remembered or forgotten on its account. */
  predicate Shows(call: Call) {
    && call.known
    && |call.nonce| == 64
    && |call.bodyHash| == 64
    && call.timestamp.Some?
    && call.timestamp.value - 30 <= call.now <= call.timestamp.value + 30
    && call.bodyMatches
    && call.macMatches
  }

  /** Until when a call is remembered: 30 seconds past the later of the clock and its timestamp. */
  function Until(call: Call): int {
    30 + if call.timestamp.Some? && call.now < call.timestamp.value then call.timestamp.value else call.now
  }

  /** No call after `j` and before `n` that showed everything came past the time of `j`. */
  predicate Unpassed(calls: seq<Call>, j: nat, n: nat)
    requires j < n <= |calls|
  {
    forall k :: j < k < n && Shows(calls[k]) ==> calls[k].now <= Until(calls[j])
  }

  /** Call `j` was let in and is still remembered when `n` calls have been made. */
  ghost predicate Held(calls: seq<Call>, j: nat, n: nat)
    requires j < n <= |calls|
    decreases j, 2
  {
    LetIn(calls, j) && Unpassed(calls, j, n)
  }

  /** The calls among the first `m` that are still remembered when `n` calls have been made. */
  ghost function HeldBefore(calls: seq<Call>, m: nat, n: nat): set<nat>
    requires m <= n <= |calls|
    decreases m, 0
  {
    set j: nat | j < m && Held(calls, j, n)
  }

  /**
   * Call `i` shows everything, no earlier call under its name and nonce is still remembered, and
   * fewer than 8192 earlier calls are.
   */
  ghost predicate LetIn(calls: seq<Call>, i: nat)
    requires i < |calls|
    decreases i, 1
  {
    && Shows(calls[i])
    && (forall j :: j in HeldBefore(calls, i, i + 1) ==> calls[j].alias != calls[i].alias || calls[j].nonce != calls[i].nonce)
    && |HeldBefore(calls, i, i + 1)| < 8192
  }

  ghost predicate EntryOf(cache: map<Key, int>, calls: seq<Call>, j: nat)
    requires j < |calls|
  {
    KeyOf(calls[j]) in cache && cache[KeyOf(calls[j])] == Until(calls[j])
  }

  /** The entries of the cache are the calls of `held`, one each. */
  ghost predicate Mirrors(cache: map<Key, int>, calls: seq<Call>, held: set<nat>) {
    && (forall j :: j in held ==> j < |calls| && EntryOf(cache, calls, j))
    && (forall key :: key in cache ==> exists j :: j in held && j < |calls| && KeyOf(calls[j]) == key)
    && (forall i, j :: i in held && j in held && i < |calls| && j < |calls| && KeyOf(calls[i]) == KeyOf(calls[j]) ==> i == j)
  }

  lemma {:induction false} KeysCount(calls: seq<Call>, held: set<nat>)
    requires forall j :: j in held ==> j < |calls|
    requires forall i, j :: i in held && j in held && KeyOf(calls[i]) == KeyOf(calls[j]) ==> i == j
    ensures |set j | j in held :: KeyOf(calls[j])| == |held|
  {
    var keys := set j | j in held :: KeyOf(calls[j]);
    if held == {} {
      assert keys == {};
    } else {
      var x :| x in held;
      KeysCount(calls, held - {x});
      var fewer := set j | j in held - {x} :: KeyOf(calls[j]);
      assert keys == fewer + {KeyOf(calls[x])};
      assert KeyOf(calls[x]) !in fewer;
    }
  }

  lemma MirrorsCount(cache: map<Key, int>, calls: seq<Call>, held: set<nat>)
    requires Mirrors(cache, calls, held)
    ensures |cache| == |held|
  {
    KeysCount(calls, held);
    assert cache.Keys == set j | j in held :: KeyOf(calls[j]) by {
      forall j | j in held ensures KeyOf(calls[j]) in cache {
        assert EntryOf(cache, calls, j);
      }
    }
    assert |cache| == |cache.Keys|;
  }

  lemma ShowsIsPasses(call: Call)
    ensures Shows(call) <==> Passes(call)
    ensures call.timestamp.Some? ==> Until(call) == Expiry(call)
  {
  }

  lemma UnpassedNext(calls: seq<Call>, j: nat, n: nat)
    requires j < n < |calls|
    ensures Unpassed(calls, j, n + 1) <==> Unpassed(calls, j, n) && (Shows(calls[n]) ==> calls[n].now <= Until(calls[j]))
  {
  }

  /** A call that shows everything leaves, of the calls held, those whose time it has not passed. */
  lemma HeldOn(calls: seq<Call>, n: nat)
    requires n < |calls|
    ensures HeldBefore(calls, n, n + 1) ==
      set j | j in HeldBefore(calls, n, n) && j < |calls| && (Shows(calls[n]) ==> calls[n].now <= Until(calls[j]))
    ensures HeldBefore(calls, n + 1, n + 1) == HeldBefore(calls, n, n + 1) + if LetIn(calls, n) then {n} else {}
  {
    forall j: nat | j < n
      ensures Held(calls, j, n + 1) <==> Held(calls, j, n) && (Shows(calls[n]) ==> calls[n].now <= Until(calls[j]))
    {
      UnpassedNext(calls, j, n);
    }
    assert Unpassed(calls, n, n + 1);
  }

  lemma PurgedMirrors(cache: map<Key, int>, calls: seq<Call>, n: nat, held: set<nat>, left: set<nat>)
    requires n < |calls| && Mirrors(cache, calls, held)
    requires left == set j | j in held && j < |calls| && calls[n].now <= Until(calls[j])
    ensures Mirrors(Purged(cache, calls[n].now), calls, left)
  {
    var purged := Purged(cache, calls[n].now);
    forall j | j in left ensures EntryOf(purged, calls, j) {
      assert EntryOf(cache, calls, j);
    }
    forall key | key in purged ensures exists j :: j in left && j < |calls| && KeyOf(calls[j]) == key {
      var j :| j in held && j < |calls| && KeyOf(calls[j]) == key;
      assert EntryOf(cache, calls, j);
    }
  }

  /** What a purged cache that mirrors the calls held says about the next call. */
  lemma MirrorDecides(cache: map<Key, int>, calls: seq<Call>, n: nat, held: set<nat>)
    requires n < |calls| && Mirrors(cache, calls, held)
    ensures KeyOf(calls[n]) in cache <==> SharesKey(calls, held, n)
    ensures |cache| == |held|
  {
    MirrorsCount(cache, calls, held);
    forall j | j in held ensures KeyOf(calls[j]) in cache {
      assert EntryOf(cache, calls, j);
    }
  }

  /** Some call of `held` has the name and nonce of call `n`. */
  ghost predicate SharesKey(calls: seq<Call>, held: set<nat>, n: nat)
    requires n < |calls|
  {
    exists j :: j in held && j < |calls| && KeyOf(calls[j]) == KeyOf(calls[n])
  }

  /** One call, seen from a cache that mirrors the calls held before it. */
  lemma NextFrom(cache: map<Key, int>, calls: seq<Call>, n: nat, was: set<nat>, left: set<nat>, held: set<nat>, letIn: bool)
    requires n < |calls| && Mirrors(cache, calls, was)
    requires left == set j | j in was && j < |calls| && (Shows(calls[n]) ==> calls[n].now <= Until(calls[j]))
    requires letIn <==> (Shows(calls[n]) && |left| < 8192 && !SharesKey(calls, left, n))
    requires held == left + if letIn then {n} else {}
    ensures Accepts(cache, calls[n]) <==> letIn
    ensures Mirrors(Next(cache, calls[n]), calls, held)
  {
    ShowsIsPasses(calls[n]);
    if Shows(calls[n]) {
      var purged := Purged(cache, calls[n].now);
      PurgedMirrors(cache, calls, n, was, left);
      MirrorDecides(purged, calls, n, left);
      if letIn {
        StoredMirrors(purged, calls, left, n);
      }
    } else {
      assert held == was;
    }
  }

  lemma LetInDecides(calls: seq<Call>, n: nat)
    requires n < |calls|
    ensures var held := HeldBefore(calls, n, n + 1);
      LetIn(calls, n) <==> (Shows(calls[n]) && |held| < 8192 && !SharesKey(calls, held, n))
  {
  }

  /** The cache decides as the list of calls does, and then remembers the same calls. */
  lemma NextMirrors(cache: map<Key, int>, calls: seq<Call>, n: nat)
    requires n < |calls| && Mirrors(cache, calls, HeldBefore(calls, n, n))
    ensures Accepts(cache, calls[n]) <==> LetIn(calls, n)
    ensures Mirrors(Next(cache, calls[n]), calls, HeldBefore(calls, n + 1, n + 1))
  {
    LetInDecides(calls, n);
    HeldOn(calls, n);
    NextFrom(cache, calls, n, HeldBefore(calls, n, n), HeldBefore(calls, n, n + 1), HeldBefore(calls, n + 1, n + 1), LetIn(calls, n));
  }

  lemma StoredMirrors(cache: map<Key, int>, calls: seq<Call>, held: set<nat>, n: nat)
    requires n < |calls| && Mirrors(cache, calls, held) && calls[n].timestamp.Some? && KeyOf(calls[n]) !in cache
    ensures Mirrors(cache[KeyOf(calls[n]) := Expiry(calls[n])], calls, held + {n})
  {
    var stored := cache[KeyOf(calls[n]) := Expiry(calls[n])];
    ShowsIsPasses(calls[n]);
    forall j | j in held + {n} ensures EntryOf(stored, calls, j) {
      assert j != n ==> EntryOf(cache, calls, j);
    }
    forall key | key in stored ensures exists j :: j in held + {n} && j < |calls| && KeyOf(calls[j]) == key {
      if key == KeyOf(calls[n]) {
        assert n in held + {n};
      } else {
        var j :| j in held && j < |calls| && KeyOf(calls[j]) == key;
        assert j in held + {n};
      }
    }
    forall j | j in held ensures KeyOf(calls[j]) != KeyOf(calls[n]) {
      assert EntryOf(cache, calls, j);
    }
  }

  lemma {:induction false} CacheMirrors(calls: seq<Call>, n: nat)
    requires n <= |calls|
    ensures Mirrors(After(map[], calls[..n]), calls, HeldBefore(calls, n, n))
  {
    if n == 0 {
      assert HeldBefore(calls, 0, 0) == {};
    } else {
      CacheMirrors(calls, n - 1);
      NextMirrors(After(map[], calls[..n - 1]), calls, n - 1);
      AfterNext(map[], calls, n - 1);
    }
  }

  /**
   * In every run from the empty cache a call is let in exactly when it shows a known name, a nonce and
   * a hash of the right length, a timestamp within 30 seconds, a matching body and a matching code, no
   * earlier call let in under its name and nonce is still remembered, and fewer than 8192 are.
   */
  lemma AcceptedExactlyWhen(calls: seq<Call>, i: nat)
    requires i < |calls|
    ensures AcceptedAt(calls, i) <==> LetIn(calls, i)
    ensures |After(map[], calls[..i])| == |HeldBefore(calls, i, i)|
  {
    CacheMirrors(calls, i);
    NextMirrors(After(map[], calls[..i]), calls, i);
    MirrorsCount(After(map[], calls[..i]), calls, HeldBefore(calls, i, i));
  }

  // ---- the agent's state ----

  class PeerNonces {
    var entries: map<Key, int>

    constructor ()
      ensures entries == map[]
    {
      entries := map[];
    }

    /** Drop every expired entry, one key at a time. */
    method Purge(now: int)
      modifies this
      ensures entries == Purged(old(entries), now)
    {
      var expired := set key | key in entries && entries[key] < now;
      while expired != {}
        invariant expired <= old(entries).Keys
        invariant forall key :: key in expired ==> old(entries)[key] < now
        invariant forall key :: key in entries <==> key in old(entries) && (key in expired || now <= old(entries)[key])
        invariant forall key :: key in entries ==> entries[key] == old(entries)[key]
        decreases |expired|
      {
        var key :| key in expired;
        entries := entries - {key};
        expired := expired - {key};
      }
    }

    /** The whole check, in the order the agent makes it. */
    method VerifyPeerAuth(call: Call) returns (ok: bool)
      modifies this
      ensures ok == Accepts(old(entries), call)
      ensures entries == Next(old(entries), call)
    {
      if !call.known {
        return false;
      }
      if |call.nonce| != 64 || |call.bodyHash| != 64 {
        return false;
      }
      if call.timestamp.None? {
        return false;
      }
      var timestamp := call.timestamp.value;
      if Abs(call.now - timestamp) > SKEW {
        return false;
      }
      if !call.bodyMatches || !call.macMatches {
        return false;
      }
      Purge(call.now);
      var key := (call.alias, call.nonce);
      if key in entries || |entries| >= LIMIT {
        return false;
      }
      entries := entries[key := Max(call.now, timestamp) + SKEW];
      return true;
    }
  }
}
