/**
 * The throttle (src/tools.py): a map from keys to the time they were
 * recorded, purged of expired entries on every query. Times are whole
 * seconds as integers; the clock is an object the throttle reads, as the
 * injectable `datetime_class` is.
 */
module Tools {

  /** `DummyDatetime`: a clock that starts at time 0 and only moves when told. */
  class Clock {
    var dt: int

    constructor()
      ensures dt == 0
    {
      dt := 0;
    }

    method Advance(seconds: int)
      modifies this
      ensures dt == old(dt) + seconds
    {
      dt := dt + seconds;
    }
  }

  /** `_has_passed`: an entry recorded at `value` has expired, strictly after `ttl` seconds. */
  predicate HasPassed(value: int, ttl: int, now: int) {
    value + ttl < now
  }

  /** The entries `_invalidate` keeps: those that have not expired at `now`. */
  function Live(entries: map<string, int>, ttl: int, now: int): map<string, int> {
    map k | k in entries && !HasPassed(entries[k], ttl, now) :: entries[k]
  }

  /** The answer and the new entries of one `is_throttled(key)` at `now`. */
  function Step(entries: map<string, int>, ttl: int, now: int, key: string): (bool, map<string, int>) {
    var live := Live(entries, ttl, now);
    if key in live then (true, live) else (false, live[key := now])
  }

  /**
   * A key is throttled iff it was recorded and has not expired; an
   * unthrottled key is recorded at `now`, a throttled one keeps its old
   * time (the window runs from the recording call).
   */
  lemma StepSpec(entries: map<string, int>, ttl: int, now: int, key: string)
    ensures var (ans, next) := Step(entries, ttl, now, key);
            && (ans <==> key in entries && entries[key] + ttl >= now)
            && key in next
            && (ans ==> next[key] == entries[key])
            && (!ans ==> next[key] == now)
  {
  }

  /** A call for one key leaves every other key as the purge left it. */
  lemma StepOtherKeys(entries: map<string, int>, ttl: int, now: int, key: string, k: string)
    requires k != key
    ensures var next := Step(entries, ttl, now, key).1;
            && (k in next <==> k in entries && !HasPassed(entries[k], ttl, now))
            && (k in next ==> next[k] == entries[k])
  {
  }

  /** An entry recorded at `t` still throttles at `t + ttl` and has expired one second later. */
  lemma ExpiryIsStrict(entries: map<string, int>, ttl: int, t: int, key: string)
    requires key in entries && entries[key] == t
    ensures Step(entries, ttl, t + ttl, key).0
    ensures !Step(entries, ttl, t + ttl + 1, key).0
  {
  }

  /** The answers of successive calls for one key at the given times. */
  function Run(entries: map<string, int>, ttl: int, times: seq<int>, key: string): seq<bool>
    decreases |times|
  {
    if times == [] then []
    else
      var (ans, next) := Step(entries, ttl, times[0], key);
      [ans] + Run(next, ttl, times[1..], key)
  }

  /** With a ten-second window, calls at 0, 5, 15, 20 and 30 answer no, yes, no, yes, no. */
  lemma TenSecondWindow()
    ensures Run(map[], 10, [0, 5, 15, 20, 30], "a") == [false, true, false, true, false]
  {
    var (a0, m0) := Step(map[], 10, 0, "a");
    assert !a0 && "a" in m0 && m0["a"] == 0;
    var (a1, m1) := Step(m0, 10, 5, "a");
    assert "a" in Live(m0, 10, 5);
    assert a1 && "a" in m1 && m1["a"] == 0;
    var (a2, m2) := Step(m1, 10, 15, "a");
    assert "a" !in Live(m1, 10, 15);
    assert !a2 && "a" in m2 && m2["a"] == 15;
    var (a3, m3) := Step(m2, 10, 20, "a");
    assert "a" in Live(m2, 10, 20);
    assert a3 && "a" in m3 && m3["a"] == 15;
    var (a4, m4) := Step(m3, 10, 30, "a");
    assert "a" !in Live(m3, 10, 30);
    assert !a4;
    assert Run(m4, 10, [], "a") == [];
    assert [0, 5, 15, 20, 30][1..] == [5, 15, 20, 30];
    assert [5, 15, 20, 30][1..] == [15, 20, 30];
    assert [15, 20, 30][1..] == [20, 30];
    assert [20, 30][1..] == [30];
  }

  /** `Throttle`: the recorded entries, the window length and the clock it reads. */
  class Throttle {
    var entries: map<string, int>
    const ttl: int
    const clock: Clock

    constructor(seconds: int, clock: Clock)
      ensures entries == map[] && ttl == seconds && this.clock == clock
    {
      entries := map[];
      ttl := seconds;
      this.clock := clock;
    }

    /** `_invalidate`: delete every entry that has expired by the clock's time. */
    method Invalidate()
      modifies this
      ensures entries == Live(old(entries), ttl, clock.dt)
    {
      var now := clock.dt;
      var copy := entries;
      var todo := copy.Keys;
      while todo != {}
        invariant todo <= copy.Keys
        invariant entries == map k | k in copy && (k in todo || !HasPassed(copy[k], ttl, now)) :: copy[k]
        decreases todo
      {
        var k :| k in todo;
        if HasPassed(copy[k], ttl, now) {
          entries := entries - {k};
        }
        todo := todo - {k};
      }
    }

    /** `is_throttled`: purge, answer whether the key survived, and record it if not. */
    method IsThrottled(key: string) returns (ans: bool)
      modifies this
      ensures (ans, entries) == Step(old(entries), ttl, clock.dt, key)
    {
      Invalidate();
      ans := key in entries;
      if !ans {
        entries := entries[key := clock.dt];
      }
    }
  }

  /** The throttle's own scenario: a ten-second window queried at 0, 5, 15, 20 and 30. */
  method TenSecondScenario() returns (results: seq<bool>)
    ensures results == [false, true, false, true, false]
  {
    var dt := new Clock();
    var th := new Throttle(10, dt);
    var a := th.IsThrottled("a");
    StepSpec(map[], 10, 0, "a");
    ghost var m := th.entries;
    dt.Advance(5);
    var b := th.IsThrottled("a");
    StepSpec(m, 10, 5, "a");
    m := th.entries;
    dt.Advance(10);
    var c := th.IsThrottled("a");
    StepSpec(m, 10, 15, "a");
    m := th.entries;
    dt.Advance(5);
    var d := th.IsThrottled("a");
    StepSpec(m, 10, 20, "a");
    m := th.entries;
    dt.Advance(10);
    var e := th.IsThrottled("a");
    StepSpec(m, 10, 30, "a");
    results := [a, b, c, d, e];
  }
}
