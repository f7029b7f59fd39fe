/** The bounded per-IP login limiter (internal/web/ratelimit.go). Every method is one atomic step,
    as the source holds its mutex throughout. Times are nanoseconds. */
module LoginLimiter {
  import opened Prelude
  import opened Backoff

  const DEFAULT_BASE_BACKOFF: int := SECOND
  const DEFAULT_MAX_BACKOFF: int := 8 * SECOND

  // ----- The backoff shift in 64-bit arithmetic -----

  const TWO_63: int := 0x8000_0000_0000_0000
  const TWO_64: int := 0x1_0000_0000_0000_0000

  /** Reduction to a signed 64-bit value. */
  function Wrap64(x: int): (w: int)
    ensures -TWO_63 <= w < TWO_63
    ensures -TWO_63 <= x < TWO_63 ==> w == x
  {
    var m := x % TWO_64;
    if m >= TWO_63 then m - TWO_64 else m
  }

  /** Go's d << shift on a time.Duration. */
  function ShiftLeft(d: int, shift: nat): int {
    Wrap64(d * Pow2(shift))
  }

  function BackoffFor(failures: int, base: int, max: int): int {
    if failures <= 1 then 0
    else
      var shift := failures - 2;
      if shift >= 62 then max
      else
        var d := ShiftLeft(base, shift);
        if d <= 0 || d > max then max else d
  }

  const TWO_33: int := 0x2_0000_0000

  /** A wrapped multiple of 2^33 is a multiple of 2^33. */
  lemma WrapKeepsMultiples(k: int) returns (j: int)
    ensures Wrap64(TWO_33 * k) == TWO_33 * j
  {
    var x := TWO_33 * k;
    var q := x / TWO_64;
    assert x == TWO_64 * q + x % TWO_64;
    j := k - 0x8000_0000 * q;
    if x % TWO_64 >= TWO_63 {
      j := j - 0x8000_0000;
    }
  }

  lemma SmallPowers()
    ensures Pow2(0) == 1 && Pow2(1) == 2 && Pow2(2) == 4 && Pow2(3) == 8 && Pow2(4) == 16
    ensures Pow2(24) == 0x100_0000
  {
    assert Pow2(4) == 2 * Pow2(3) == 4 * Pow2(2) == 8 * Pow2(1) == 16 * Pow2(0);
    Pow2Adds(4, 4);
    assert Pow2(8) == 256;
    Pow2Adds(8, 8);
    Pow2Adds(16, 8);
  }

  /** A shift that runs out of 64 bits never lands in (0, max]. */
  lemma LongShiftIsRefused(shift: nat)
    requires 4 <= shift
    ensures var d := ShiftLeft(DEFAULT_BASE_BACKOFF, shift); d <= 0 || d > DEFAULT_MAX_BACKOFF
  {
    SmallPowers();
    Pow2Monotone(4, shift);
    if shift < 24 {
      Pow2Monotone(shift, 24);
      assert DEFAULT_BASE_BACKOFF * Pow2(shift) <= DEFAULT_BASE_BACKOFF * 0x100_0000;
    } else {
      var k := 1953125 * Pow2(shift - 24);
      Pow2Adds(24, shift - 24);
      assert DEFAULT_BASE_BACKOFF * Pow2(shift) == TWO_33 * k;
      var j := WrapKeepsMultiples(k);
    }
  }

  /** With the default constants the shift and the doubling loop give the same wait, for every count
      of failures: min(base * 2^(n-2), max). */
  lemma FormulasAgree(n: int)
    requires n >= 2
    ensures BackoffFor(n, DEFAULT_BASE_BACKOFF, DEFAULT_MAX_BACKOFF)
            == Delay(n - 1, DEFAULT_BASE_BACKOFF, DEFAULT_MAX_BACKOFF)
    ensures BackoffFor(n, DEFAULT_BASE_BACKOFF, DEFAULT_MAX_BACKOFF) ==
              Min(DEFAULT_BASE_BACKOFF * Pow2(n - 2), DEFAULT_MAX_BACKOFF)
  {
    SmallPowers();
    if n - 2 >= 4 {
      Pow2Monotone(4, n - 2);
      LongShiftIsRefused(n - 2);
    }
  }

  /** Checkable before use: no shift below 62 that has outgrown `max` wraps to something inside it, and
      62 doublings reach `max`. */
  predicate ShiftsSafely(base: int, max: int) {
    if base <= 0 || max <= 0 then max == 0
    else max <= base * Pow2(62) && forall shift: nat | shift < 62 :: ShiftIsSafe(base, max, shift)
  }

  /** The guard of backoffFor does its work at this shift. */
  predicate ShiftIsSafe(base: int, max: int, shift: nat) {
    base * Pow2(shift) <= max || !(0 < ShiftLeft(base, shift) < max)
  }

  lemma AgreeBelow(base: Duration, max: Duration, shift: nat)
    requires base > 0 && max > 0 && shift < 62
    ensures BackoffFor(shift + 2, base as int, max as int) == Delay(shift + 1, base as int, max as int)
            <==> ShiftIsSafe(base as int, max as int, shift)
  {
    Scale(base as int, 1, Pow2(shift));
  }

  lemma AgreeAbove(base: Duration, max: Duration, shift: nat)
    requires base > 0 && max > 0 && shift >= 62 && max as int <= base as int * Pow2(62)
    ensures BackoffFor(shift + 2, base as int, max as int) == Delay(shift + 1, base as int, max as int)
  {
    Pow2Monotone(62, shift);
    Scale(base as int, Pow2(62), Pow2(shift));
  }

  /** For any settings: the shift with its guard and the doubling loop give the same wait for every
      count of failures exactly when the shifts are safe. */
  lemma FormulasAgreeIff(base: Duration, max: Duration)
    ensures (forall n: int {:trigger BackoffFor(n, base as int, max as int)} :: n >= 2 ==>
               BackoffFor(n, base as int, max as int) == Delay(n - 1, base as int, max as int))
            <==> ShiftsSafely(base as int, max as int)
  {
    var b, m := base as int, max as int;
    if b > 0 && m > 0 {
      if forall n: int {:trigger BackoffFor(n, b, m)} :: n >= 2 ==> BackoffFor(n, b, m) == Delay(n - 1, b, m) {
        assert BackoffFor(64, b, m) == Delay(63, b, m);
        forall shift: nat | shift < 62
          ensures ShiftIsSafe(b, m, shift)
        {
          assert BackoffFor(shift + 2, b, m) == Delay(shift + 1, b, m);
          AgreeBelow(base, max, shift);
        }
      }
      if ShiftsSafely(b, m) {
        forall n: int | n >= 2
          ensures BackoffFor(n, b, m) == Delay(n - 1, b, m)
        {
          if n < 64 { AgreeBelow(base, max, n - 2); } else { AgreeAbove(base, max, n - 2); }
        }
      }
    } else {
      assert Delay(1, b, m) == 0 && (BackoffFor(2, b, m) == Delay(1, b, m) ==> m == 0);
    }
  }

  /** Unsafe settings exist: the third shift of this base wraps to 4. */
  lemma FormulasDifferElsewhere()
    ensures var base := 0x4000_0000_0000_0001;
      BackoffFor(4, base, base) == 4 && Delay(3, base, base) == base && !ShiftsSafely(base, base)
  {
    var base := 0x4000_0000_0000_0001;
    SmallPowers();
    assert !ShiftIsSafe(base, base, 2);
  }

  // ----- The attempts map -----

  datatype Attempt = Attempt(failures: int, lockedUntil: Option<int>, lastSeen: int)

  datatype Limits = Limits(base: int, max: int, maxFailures: int, lockout: int, idleEvictAfter: int, maxEntries: nat)

  /** The clock readings of one fail(): idle sweep, oldest scan, lastSeen, lockedUntil. */
  datatype Readings = Readings(idle: int, oldest: int, seen: int, lock: int)

  type Attempts = map<string, Attempt>

  predicate Active(a: Attempt, now: int) {
    a.lockedUntil.Some? && now < a.lockedUntil.value
  }

  /** `t` is what evictions at `now` may leave of `s`: nothing new, no active lockout gone. */
  ghost predicate EvictedTo(s: Attempts, t: Attempts, now: int) {
    && (forall ip :: ip in t ==> ip in s && t[ip] == s[ip])
    && (forall ip :: ip in s && Active(s[ip], now) ==> ip in t)
  }

  ghost predicate AllActive(s: Attempts, now: int) {
    forall ip :: ip in s ==> Active(s[ip], now)
  }

  ghost predicate AllActiveOr(s: Attempts, now: int, cutoff: int) {
    forall ip :: ip in s ==> Active(s[ip], now) || s[ip].lastSeen >= cutoff
  }

  lemma NoneUnlocked(s: Attempts, t: Attempts, now: int)
    requires EvictedTo(s, t, now)
    ensures (forall ip :: !Unlocked(s, now, ip)) ==> AllActive(t, now)
  {
    forall ip | ip in t && !Unlocked(s, now, ip)
      ensures Active(t[ip], now)
    {
    }
  }

  function Bumped(l: Limits, s: Attempts, ip: string, r: Readings): Attempt {
    var before := if ip in s then s[ip] else Attempt(0, None, 0);
    var n := before.failures + 1;
    Attempt(n, if n >= l.maxFailures then Some(r.lock + l.lockout) else before.lockedUntil, r.seen)
  }

  ghost predicate AllowStep(s: Attempts, ip: string, now: int, t: Attempts, ok: bool, retryAfter: int) {
    if ip in s && Active(s[ip], now) then !ok && retryAfter == s[ip].lockedUntil.value - now && t == s
    else ok && retryAfter == 0 && t == if ip in s && s[ip].lockedUntil.Some? then s - {ip} else s
  }

  /** fail(): evictions leave `mid`; then the attempt is recorded, or refused for want of room. */
  ghost predicate FailVia(l: Limits, s: Attempts, mid: Attempts, ip: string, r: Readings, t: Attempts, wait: int) {
    && EvictedTo(s, mid, r.oldest)
    && (ip in s || |s| < l.maxEntries ==> mid == s)
    && (if ip !in s && |mid| >= l.maxEntries then t == mid && wait == l.max && ("" !in s ==> AllActive(mid, r.oldest))
        else t == mid[ip := Bumped(l, s, ip, r)] && wait == BackoffFor(Bumped(l, s, ip, r).failures, l.base, l.max))
  }

  ghost predicate FailStep(l: Limits, s: Attempts, ip: string, r: Readings, t: Attempts, wait: int) {
    exists mid: Attempts :: FailVia(l, s, mid, ip, r, t, wait)
  }

  // ----- Which entry the hard-cap eviction picks -----

  /** Every entry is visited, none twice. Keys that are gone are passed over. */
  ghost predicate IsOrder(order: seq<string>, s: Attempts) {
    && (forall ip :: ip in s ==> ip in order)
    && forall i, j :: 0 <= i < j < |order| ==> order[i] != order[j]
  }

  predicate Unlocked(s: Attempts, now: int, ip: string) {
    ip in s && !Active(s[ip], now)
  }

  /** oldestIP and oldest after n visits; the empty string stands for "none yet". */
  function Scanned(s: Attempts, now: int, order: seq<string>, n: nat): (string, int)
    requires n <= |order|
  {
    if n == 0 then ("", 0)
    else
      var (ip, oldest) := Scanned(s, now, order, n - 1);
      var k := order[n - 1];
      if Unlocked(s, now, k) && (ip == "" || s[k].lastSeen < oldest) then (k, s[k].lastSeen) else (ip, oldest)
  }

  /** The address removed, or "" when none is: an entry under the empty address is taken for "none". */
  function Victim(s: Attempts, now: int, order: seq<string>): string {
    Scanned(s, now, order, |order|).0
  }

  /** When some entry is unlocked, a least recently seen unlocked one goes. */
  ghost predicate RightVictim(s: Attempts, now: int, v: string) {
    (exists ip :: Unlocked(s, now, ip)) ==>
      v != "" && Unlocked(s, now, v) && forall ip :: Unlocked(s, now, ip) ==> s[v].lastSeen <= s[ip].lastSeen
  }

  /** No unlocked entry under the empty address that every other unlocked one was seen after. */
  ghost predicate EmptyIsSafe(s: Attempts, now: int) {
    !Unlocked(s, now, "") || exists ip :: ip != "" && Unlocked(s, now, ip) && s[ip].lastSeen <= s[""].lastSeen
  }

  lemma {:induction false} ScanInvariant(s: Attempts, now: int, order: seq<string>, n: nat)
    requires n <= |order|
    ensures var (ip, oldest) := Scanned(s, now, order, n);
      && (ip != "" ==> Unlocked(s, now, ip) && oldest == s[ip].lastSeen)
      && forall i :: 0 <= i < n && order[i] != "" && Unlocked(s, now, order[i])
                     && (Unlocked(s, now, "") ==> s[order[i]].lastSeen <= s[""].lastSeen) ==>
           ip != "" && oldest <= s[order[i]].lastSeen
  {
    if n > 0 { ScanInvariant(s, now, order, n - 1); }
  }

  lemma OldestIsEvicted(s: Attempts, now: int, order: seq<string>)
    requires IsOrder(order, s) && EmptyIsSafe(s, now)
    ensures RightVictim(s, now, Victim(s, now, order))
  {
    ScanInvariant(s, now, order, |order|);
    if ip :| Unlocked(s, now, ip) {
      var w :| w != "" && Unlocked(s, now, w) && (Unlocked(s, now, "") ==> s[w].lastSeen <= s[""].lastSeen);
      var k :| 0 <= k < |order| && order[k] == w;
      forall ip | Unlocked(s, now, ip)
        ensures s[Victim(s, now, order)].lastSeen <= s[ip].lastSeen
      {
        var i :| 0 <= i < |order| && order[i] == ip;
      }
    }
  }

  lemma VictimIsUnlocked(s: Attempts, now: int, order: seq<string>)
    requires IsOrder(order, s)
    ensures var v := Victim(s, now, order);
      && (v != "" ==> Unlocked(s, now, v))
      && (EmptyIsSafe(s, now) && (exists ip :: Unlocked(s, now, ip)) ==> v != "")
  {
    ScanInvariant(s, now, order, |order|);
    if EmptyIsSafe(s, now) { OldestIsEvicted(s, now, order); }
  }

  lemma {:induction false} Enumerate(keys: set<string>) returns (order: seq<string>)
    ensures forall k :: k in keys <==> k in order
    ensures forall i, j :: 0 <= i < j < |order| ==> order[i] != order[j]
    decreases |keys|
  {
    order := [];
    if keys != {} {
      var k :| k in keys;
      var rest := Enumerate(keys - {k});
      order := rest + [k];
    }
  }

  /** Visited last, such an entry displaces the right victim and nothing is removed. */
  lemma EmptyAddressShields(s: Attempts, now: int) returns (order: seq<string>)
    requires !EmptyIsSafe(s, now)
    ensures IsOrder(order, s) && Victim(s, now, order) == ""
  {
    var rest := Enumerate(s.Keys - {""});
    order := rest + [""];
    ScanInvariant(s, now, order, |rest|);
  }

  /** The hard cap drops a least recently seen unlocked entry, whatever order the map is iterated in,
      exactly when no stalest unlocked entry is filed under the empty address. */
  lemma OldestIsEvictedIff(s: Attempts, now: int)
    ensures (forall order :: IsOrder(order, s) ==> RightVictim(s, now, Victim(s, now, order))) <==> EmptyIsSafe(s, now)
  {
    if EmptyIsSafe(s, now) {
      forall order | IsOrder(order, s)
        ensures RightVictim(s, now, Victim(s, now, order))
      {
        OldestIsEvicted(s, now, order);
      }
    } else {
      var order := EmptyAddressShields(s, now);
      assert IsOrder(order, s) && Unlocked(s, now, "");
    }
  }

  class Limiter {
    var attempts: Attempts
    const limits: Limits

    constructor (limits: Limits)
      ensures attempts == map[] && this.limits == limits
    {
      attempts := map[];
      this.limits := limits;
    }

    method Allow(ip: string, now: int) returns (ok: bool, retryAfter: int)
      modifies this
      ensures AllowStep(old(attempts), ip, now, attempts, ok, retryAfter)
      ensures |attempts| <= |old(attempts)|
    {
      if ip !in attempts || attempts[ip].lockedUntil.None? {
        return true, 0;
      }
      var remaining := attempts[ip].lockedUntil.value - now;
      if remaining > 0 {
        return false, remaining;
      }
      RemoveShrinks(attempts, ip);
      attempts := attempts - {ip};
      return true, 0;
    }

    /** Records a failure. A full table makes room for a new address first, and refuses it only when
        every entry it holds is an active lockout. */
    method Fail(ip: string, r: Readings, order: seq<string>) returns (wait: int, ghost mid: Attempts)
      requires |attempts| <= limits.maxEntries && r.idle <= r.oldest && IsOrder(order, attempts)
      modifies this
      ensures FailVia(limits, old(attempts), mid, ip, r, attempts, wait)
      ensures |attempts| <= limits.maxEntries
      ensures ip !in attempts && "" !in old(attempts) ==> AllActive(attempts, r.oldest)
    {
      if ip !in attempts && |attempts| >= limits.maxEntries {
        MakeRoom(r, order);
        if |attempts| >= limits.maxEntries {
          return limits.max, attempts;
        }
      }
      mid := attempts;
      wait := Count(ip, r);
    }

    method Count(ip: string, r: Readings) returns (wait: int)
      modifies this
      ensures attempts == old(attempts)[ip := Bumped(limits, old(attempts), ip, r)]
      ensures |attempts| == |old(attempts)| + (if ip in old(attempts) then 0 else 1)
      ensures wait == BackoffFor(Bumped(limits, old(attempts), ip, r).failures, limits.base, limits.max)
    {
      var a := if ip in attempts then attempts[ip] else Attempt(0, None, 0);
      a := a.(failures := a.failures + 1, lastSeen := r.seen);
      if a.failures >= limits.maxFailures {
        a := a.(lockedUntil := Some(r.lock + limits.lockout));
      }
      AddGrows(attempts, ip, a);
      attempts := attempts[ip := a];
      wait := BackoffFor(a.failures, limits.base, limits.max);
    }

    method MakeRoom(r: Readings, order: seq<string>)
      requires |attempts| >= limits.maxEntries && r.idle <= r.oldest && IsOrder(order, attempts)
      modifies this
      ensures EvictedTo(old(attempts), attempts, r.oldest) && |attempts| <= |old(attempts)|
      ensures AllActiveOr(attempts, r.idle, r.idle - limits.idleEvictAfter)
      ensures |attempts| >= limits.maxEntries && "" !in old(attempts) && |old(attempts)| == limits.maxEntries ==>
                AllActive(attempts, r.oldest)
    {
      ghost var before := attempts;
      EvictIdle(r.idle);
      ghost var idle := attempts;
      if |attempts| >= limits.maxEntries {
        EvictOldest(r.oldest, order);
        NoneUnlocked(idle, attempts, r.oldest);
      }
      EvictedTwice(before, idle, attempts, r.idle, r.oldest);
    }

    /** Entries idle past the limit go, active lockouts excepted. */
    method EvictIdle(now: int)
      modifies this
      ensures EvictedTo(old(attempts), attempts, now) && |attempts| <= |old(attempts)|
      ensures forall ip :: ip in old(attempts) ==>
                (ip in attempts <==>
                  Active(old(attempts)[ip], now) || old(attempts)[ip].lastSeen >= now - limits.idleEvictAfter)
    {
      var cutoff := now - limits.idleEvictAfter;
      var todo := attempts.Keys;
      while todo != {}
        invariant todo <= attempts.Keys && |attempts| <= |old(attempts)|
        invariant forall ip :: ip in attempts ==> ip in old(attempts) && attempts[ip] == old(attempts)[ip]
        invariant forall ip :: ip in old(attempts) && ip !in todo ==>
                    (ip in attempts <==> Active(old(attempts)[ip], now) || old(attempts)[ip].lastSeen >= cutoff)
        invariant todo <= old(attempts).Keys
        decreases todo
      {
        var ip :| ip in todo;
        todo := todo - {ip};
        if !Active(attempts[ip], now) && attempts[ip].lastSeen < cutoff {
          RemoveShrinks(attempts, ip);
          attempts := attempts - {ip};
        }
      }
    }

    /** The scan for the oldest unlocked entry; `order` is the order in which the map is iterated. */
    method EvictOldest(now: int, order: seq<string>)
      requires IsOrder(order, attempts)
      modifies this
      ensures var v := Victim(old(attempts), now, order);
        attempts == (if v == "" then old(attempts) else old(attempts) - {v})
      ensures EvictedTo(old(attempts), attempts, now) && |attempts| <= |old(attempts)|
      ensures EmptyIsSafe(old(attempts), now) && (exists ip :: Unlocked(old(attempts), now, ip)) ==>
              |attempts| < |old(attempts)|
    {
      var oldestIP, oldest := "", 0;
      var i := 0;
      while i < |order|
        invariant i <= |order| && (oldestIP, oldest) == Scanned(attempts, now, order, i)
      {
        var ip := order[i];
        i := i + 1;
        if ip !in attempts || Active(attempts[ip], now) {
          continue;
        }
        if oldestIP == "" || attempts[ip].lastSeen < oldest {
          oldestIP := ip;
          oldest := attempts[ip].lastSeen;
        }
      }
      VictimIsUnlocked(attempts, now, order);
      if oldestIP != "" {
        RemoveShrinks(attempts, oldestIP);
        attempts := attempts - {oldestIP};
      }
    }

    method Success(ip: string)
      modifies this
      ensures attempts == old(attempts) - {ip} && |attempts| <= |old(attempts)|
    {
      RemoveShrinks(attempts, ip);
      attempts := attempts - {ip};
    }
  }

  lemma RemoveShrinks(s: Attempts, ip: string)
    ensures |s - {ip}| == |s| - (if ip in s then 1 else 0)
  {
    assert (s - {ip}).Keys == s.Keys - {ip};
    assert |(s - {ip}).Keys| == |s.Keys| - (if ip in s then 1 else 0);
  }

  lemma EvictedTwice(s: Attempts, mid: Attempts, t: Attempts, first: int, second: int)
    requires EvictedTo(s, mid, first) && first <= second && (t == mid || EvictedTo(mid, t, second))
    ensures EvictedTo(s, t, second)
  {
    forall ip | ip in s && Active(s[ip], second)
      ensures ip in t
    {
      assert Active(s[ip], first) && ip in mid;
    }
  }

  lemma AddGrows(s: Attempts, ip: string, a: Attempt)
    ensures |s[ip := a]| == |s| + (if ip in s then 0 else 1)
  {
    assert s[ip := a].Keys == s.Keys + {ip};
    assert |s[ip := a].Keys| == |s.Keys| + (if ip in s then 0 else 1);
  }

  // ----- Over runs with a monotone clock -----

  datatype Op =
    | AllowOp(ip: string, now: int, ok: bool, retryAfter: int)
    | FailOp(ip: string, readings: Readings, wait: int)
    | SuccessOp(ip: string, now: int)
  {
    /** The first and the last clock reading of the call. */
    function Start(): int {
      match this case AllowOp(_, now, _, _) => now case FailOp(_, r, _) => r.idle case SuccessOp(_, now) => now
    }
    function End(): int {
      match this case AllowOp(_, now, _, _) => now case FailOp(_, r, _) => r.lock case SuccessOp(_, now) => now
    }
    predicate Monotone() {
      FailOp? ==> readings.idle <= readings.oldest <= readings.seen <= readings.lock
    }
  }

  ghost predicate Step(l: Limits, s: Attempts, op: Op, t: Attempts) {
    match op
    case AllowOp(ip, now, ok, retryAfter) => AllowStep(s, ip, now, t, ok, retryAfter)
    case FailOp(ip, r, wait) => FailStep(l, s, ip, r, t, wait)
    case SuccessOp(ip, _) => t == s - {ip}
  }

  ghost predicate StepAt(l: Limits, states: seq<Attempts>, ops: seq<Op>, k: nat)
    requires k < |ops| && |states| == |ops| + 1
  {
    && Step(l, states[k], ops[k], states[k + 1]) && ops[k].Monotone()
    && (k > 0 ==> ops[k - 1].End() <= ops[k].Start())
  }

  ghost predicate IsRun(l: Limits, states: seq<Attempts>, ops: seq<Op>) {
    && |states| == |ops| + 1 && states[0] == map[]
    && forall k :: 0 <= k < |ops| ==> StepAt(l, states, ops, k)
  }

  lemma {:induction false} SubmapSize(t: Attempts, s: Attempts)
    requires t.Keys <= s.Keys
    ensures |t| <= |s|
    decreases |t|
  {
    if t != map[] {
      var ip :| ip in t;
      RemoveShrinks(t, ip);
      RemoveShrinks(s, ip);
      SubmapSize(t - {ip}, s - {ip});
    }
  }

  lemma FailBounded(l: Limits, s: Attempts, ip: string, r: Readings, t: Attempts, wait: int)
    requires FailStep(l, s, ip, r, t, wait) && |s| <= l.maxEntries
    ensures |t| <= l.maxEntries
  {
    var mid: Attempts :| FailVia(l, s, mid, ip, r, t, wait);
    SubmapSize(mid, s);
    AddGrows(mid, ip, Bumped(l, s, ip, r));
  }

  /** The map never holds more than maxEntries entries. */
  lemma {:induction false} Bounded(l: Limits, states: seq<Attempts>, ops: seq<Op>, k: nat)
    requires IsRun(l, states, ops) && k < |states|
    ensures |states[k]| <= l.maxEntries
  {
    if k > 0 {
      Bounded(l, states, ops, k - 1);
      assert StepAt(l, states, ops, k - 1);
      var s, t := states[k - 1], states[k];
      match ops[k - 1]
      case AllowOp(ip, _, _, _) => RemoveShrinks(s, ip);
      case SuccessOp(ip, _) => RemoveShrinks(s, ip);
      case FailOp(ip, r, wait) => FailBounded(l, s, ip, r, t, wait);
    }
  }

  /** A lockout was there before, or this call's failure set it. */
  lemma LockOrigin(l: Limits, s: Attempts, op: Op, t: Attempts, ip: string)
    requires Step(l, s, op, t) && ip in t && t[ip].lockedUntil.Some?
    ensures (ip in s && s[ip].lockedUntil == t[ip].lockedUntil)
            || (op.FailOp? && t[ip].lockedUntil.value == op.End() + l.lockout)
  {
    if op.FailOp? {
      var mid: Attempts :| FailVia(l, s, mid, op.ip, op.readings, t, op.wait);
    }
  }

  /** No lockout ends later than one lockout period after the latest clock reading. */
  lemma {:induction false} LocksAreRecent(l: Limits, states: seq<Attempts>, ops: seq<Op>, k: nat, ip: string)
    requires IsRun(l, states, ops) && k < |states| && ip in states[k] && states[k][ip].lockedUntil.Some?
    ensures k > 0 && states[k][ip].lockedUntil.value <= ops[k - 1].End() + l.lockout
  {
    assert k > 0;
    assert StepAt(l, states, ops, k - 1);
    LockOrigin(l, states[k - 1], ops[k - 1], states[k], ip);
    if ip in states[k - 1] && states[k - 1][ip].lockedUntil == states[k][ip].lockedUntil {
      LocksAreRecent(l, states, ops, k - 1, ip);
      ClockMoves(l, states, ops, k - 1);
    }
  }

  lemma ClockMoves(l: Limits, states: seq<Attempts>, ops: seq<Op>, k: nat)
    requires IsRun(l, states, ops) && 0 < k < |ops|
    ensures ops[k - 1].End() <= ops[k].End()
  {
    assert StepAt(l, states, ops, k);
  }

  ghost predicate LockedUntil(s: Attempts, ip: string, until: int) {
    ip in s && s[ip].lockedUntil.Some? && s[ip].lockedUntil.value >= until
  }

  lemma LockSurvivesStep(l: Limits, states: seq<Attempts>, ops: seq<Op>, k: nat, ip: string, until: int)
    requires IsRun(l, states, ops) && k < |ops| && LockedUntil(states[k], ip, until)
    requires ops[k].End() < until && !(ops[k].SuccessOp? && ops[k].ip == ip)
    ensures LockedUntil(states[k + 1], ip, until)
    ensures ops[k].AllowOp? && ops[k].ip == ip ==> !ops[k].ok && ops[k].retryAfter >= until - ops[k].now > 0
  {
    assert StepAt(l, states, ops, k);
    LocksAreRecent(l, states, ops, k, ip);
  }

  /** An IP locked until `until` is refused by every allow before then, whatever other IPs do and
      whatever is evicted, unless success is called for that IP. */
  lemma {:induction false} LockHolds(l: Limits, states: seq<Attempts>, ops: seq<Op>, j: nat, k: nat, ip: string,
                                     until: int)
    requires IsRun(l, states, ops) && j <= k <= |ops| && LockedUntil(states[j], ip, until)
    requires forall i :: j <= i < k ==> ops[i].End() < until && !(ops[i].SuccessOp? && ops[i].ip == ip)
    ensures LockedUntil(states[k], ip, until)
    ensures forall i :: j <= i < k && ops[i].AllowOp? && ops[i].ip == ip ==>
              !ops[i].ok && ops[i].retryAfter >= until - ops[i].now > 0
  {
    if j < k {
      LockHolds(l, states, ops, j, k - 1, ip, until);
      LockSurvivesStep(l, states, ops, k - 1, ip, until);
    }
  }

  /** No failure was filed under the empty address. */
  ghost predicate Addressed(ops: seq<Op>) {
    forall i :: 0 <= i < |ops| && ops[i].FailOp? ==> ops[i].ip != ""
  }

  lemma FailKeepsAddresses(l: Limits, s: Attempts, ip: string, r: Readings, t: Attempts, wait: int)
    requires FailStep(l, s, ip, r, t, wait) && "" !in s && ip != ""
    ensures "" !in t && (ip !in t ==> |t| >= l.maxEntries && AllActive(t, r.oldest) && wait == l.max)
  {
    var mid: Attempts :| FailVia(l, s, mid, ip, r, t, wait);
  }

  lemma {:induction false} NoEmptyAddress(l: Limits, states: seq<Attempts>, ops: seq<Op>, k: nat)
    requires IsRun(l, states, ops) && Addressed(ops) && k < |states|
    ensures "" !in states[k]
  {
    if k > 0 {
      NoEmptyAddress(l, states, ops, k - 1);
      assert StepAt(l, states, ops, k - 1);
      var op := ops[k - 1];
      if op.FailOp? { FailKeepsAddresses(l, states[k - 1], op.ip, op.readings, states[k], op.wait); }
    }
  }

  /** Over runs: a failure goes unrecorded only when every entry of the full map is an active lock, and
      then waits the maximum. */
  lemma RefusedOnlyByLocks(l: Limits, states: seq<Attempts>, ops: seq<Op>, k: nat)
    requires IsRun(l, states, ops) && Addressed(ops) && k < |ops| && ops[k].FailOp? && ops[k].ip !in states[k + 1]
    ensures |states[k + 1]| == l.maxEntries && AllActive(states[k + 1], ops[k].readings.oldest)
    ensures ops[k].wait == l.max
  {
    NoEmptyAddress(l, states, ops, k);
    assert StepAt(l, states, ops, k);
    FailKeepsAddresses(l, states[k], ops[k].ip, ops[k].readings, states[k + 1], ops[k].wait);
    Bounded(l, states, ops, k + 1);
  }

  /** The failure that reaches maxFailures locks for the whole period. */
  lemma LimitLocks(l: Limits, s: Attempts, ip: string, r: Readings, t: Attempts, wait: int)
    requires FailStep(l, s, ip, r, t, wait) && (ip in s || |s| < l.maxEntries)
    requires (if ip in s then s[ip].failures else 0) + 1 >= l.maxFailures
    ensures LockedUntil(t, ip, r.lock + l.lockout)
  {
  }

  /** A recorded failure adds one to the count, the first one waits for nothing and each later one, by
      the default settings, twice as long as the one before, up to the cap; short of the limit nothing is
      locked that was not locked before. Other entries stand. */
  lemma FailCounts(l: Limits, s: Attempts, ip: string, r: Readings, t: Attempts, wait: int)
    requires FailStep(l, s, ip, r, t, wait) && ip in t
    ensures t[ip].failures == (if ip in s then s[ip].failures else 0) + 1 && t[ip].lastSeen == r.seen
    ensures t[ip].failures == 1 ==> wait == 0
    ensures t[ip].failures >= 2 && l.base == 1_000_000_000 && l.max == 8_000_000_000 ==>
              wait == Min(1_000_000_000 * Pow2(t[ip].failures - 2), 8_000_000_000)
    ensures t[ip].failures < l.maxFailures ==>
              t[ip].lockedUntil == if ip in s then s[ip].lockedUntil else None
    ensures forall other :: other in t && other != ip ==> other in s && t[other] == s[other]
  {
    var mid: Attempts :| FailVia(l, s, mid, ip, r, t, wait);
    if t[ip].failures >= 2 { FormulasAgree(t[ip].failures); }
  }

  /** The failures of an address since its last success. */
  function FailuresOf(ops: seq<Op>, ip: string): nat {
    if ops == [] then 0
    else
      var before, op := FailuresOf(ops[..|ops| - 1], ip), ops[|ops| - 1];
      if op.ip != ip || op.AllowOp? then before else if op.FailOp? then before + 1 else 0
  }

  /** What an entry claims is backed by its history: no more failures than happened since the last
      success, and a lock only behind maxFailures of them. */
  ghost predicate Backed(l: Limits, a: Attempt, failures: nat) {
    a.failures <= failures && (a.lockedUntil.Some? ==> a.failures >= l.maxFailures)
  }

  lemma BackedStep(l: Limits, s: Attempts, op: Op, t: Attempts, ip: string, before: nat, after: nat)
    requires Step(l, s, op, t) && (ip in s ==> Backed(l, s[ip], before)) && ip in t
    requires after == if op.ip != ip || op.AllowOp? then before else if op.FailOp? then before + 1 else 0
    ensures Backed(l, t[ip], after)
  {
    if op.FailOp? {
      var mid: Attempts :| FailVia(l, s, mid, op.ip, op.readings, t, op.wait);
    }
  }

  lemma {:induction false} EntriesAreBacked(l: Limits, states: seq<Attempts>, ops: seq<Op>, k: nat, ip: string)
    requires IsRun(l, states, ops) && k < |states| && ip in states[k]
    ensures Backed(l, states[k][ip], FailuresOf(ops[..k], ip))
  {
    assert k > 0;
    assert StepAt(l, states, ops, k - 1);
    assert ops[..k][..k - 1] == ops[..k - 1];
    if ip in states[k - 1] { EntriesAreBacked(l, states, ops, k - 1, ip); }
    BackedStep(l, states[k - 1], ops[k - 1], states[k], ip, FailuresOf(ops[..k - 1], ip), FailuresOf(ops[..k], ip));
  }

  /** No address is locked out short of maxFailures failures since its last success. */
  lemma LocksAreEarned(l: Limits, states: seq<Attempts>, ops: seq<Op>, k: nat, ip: string)
    requires IsRun(l, states, ops) && k < |ops| && ops[k].AllowOp? && ops[k].ip == ip && !ops[k].ok
    ensures FailuresOf(ops[..k], ip) >= l.maxFailures
  {
    assert StepAt(l, states, ops, k);
    EntriesAreBacked(l, states, ops, k, ip);
  }

  /** The failures of an address among the operations from j up to k. */
  function FailsBetween(ops: seq<Op>, j: nat, k: nat, ip: string): nat
    requires j <= k <= |ops|
    decreases k
  {
    if j == k then 0
    else FailsBetween(ops, j, k - 1, ip) + (if ops[k - 1].FailOp? && ops[k - 1].ip == ip then 1 else 0)
  }

  lemma CountStep(l: Limits, s: Attempts, op: Op, t: Attempts, ip: string)
    requires Step(l, s, op, t) && ip in s && ip in t
    ensures t[ip].failures == s[ip].failures + if op.FailOp? && op.ip == ip then 1 else 0
  {
    if op.FailOp? {
      var mid: Attempts :| FailVia(l, s, mid, op.ip, op.readings, t, op.wait);
    }
  }

  /** As long as its entry is kept every failure of an address counts. */
  lemma {:induction false} FailuresAddUp(l: Limits, states: seq<Attempts>, ops: seq<Op>, j: nat, k: nat, ip: string)
    requires IsRun(l, states, ops) && j <= k <= |ops| && forall i :: j <= i <= k ==> ip in states[i]
    ensures states[k][ip].failures == states[j][ip].failures + FailsBetween(ops, j, k, ip)
  {
    if j < k {
      FailuresAddUp(l, states, ops, j, k - 1, ip);
      assert StepAt(l, states, ops, k - 1);
      CountStep(l, states[k - 1], ops[k - 1], states[k], ip);
    }
  }
}
