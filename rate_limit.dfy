/**
 * The contact endpoint's in-memory rate limiter: a process-wide map from a
 * client identity to the number of submissions seen in the identity's current
 * one-hour window and the instant (in milliseconds) at which that window ends.
 */
module RateLimit {

  /** Length of one window in milliseconds (60 * 60 * 1000). */
  const WindowMs: int := 3600000

  /** Largest number of allowed submissions per identity and window. */
  const MaxPerWindow: nat := 5

  datatype Entry = Entry(count: nat, resetTime: int)

  /** The invariant the limiter keeps: every stored count lies in [1, MaxPerWindow]. */
  ghost predicate CountsInRange(m: map<string, Entry>)
  {
    forall id :: id in m ==> 1 <= m[id].count <= MaxPerWindow
  }

  /** The verdict of one rate-limit check and the map after it. */
  datatype Decision = Decision(allowed: bool, entries: map<string, Entry>)

  /** True when a call at `now` starts a new window for `id`. */
  predicate OpensWindow(m: map<string, Entry>, id: string, now: int)
  {
    id !in m || now > m[id].resetTime
  }

  /** One rate-limit check for `id` at time `now`: the specification of RateLimiter.Check. */
  function Step(m: map<string, Entry>, id: string, now: int): Decision
  {
    if OpensWindow(m, id, now) then
      Decision(true, m[id := Entry(1, now + WindowMs)])
    else if m[id].count >= MaxPerWindow then
      Decision(false, m)
    else
      Decision(true, m[id := m[id].(count := m[id].count + 1)])
  }

  /** A check never touches another identity's entry, and it always leaves an entry for `id`. */
  lemma StepFrame(m: map<string, Entry>, id: string, now: int, other: string)
    requires other != id
    ensures id in Step(m, id, now).entries
    ensures other in Step(m, id, now).entries <==> other in m
    ensures other in m ==> Step(m, id, now).entries[other] == m[other]
  {
  }

  /** A check keeps every stored count in [1, MaxPerWindow]. */
  lemma StepKeepsCountsInRange(m: map<string, Entry>, id: string, now: int)
    requires CountsInRange(m)
    ensures CountsInRange(Step(m, id, now).entries)
  {
  }

  /** One call of Run: an identity and the clock reading at the time of the call. */
  datatype Call = Call(id: string, now: int)

  datatype Trace = Trace(allowed: seq<bool>, entries: map<string, Entry>)

  /** The verdicts of a sequence of checks made one after another, and the final map. */
  function Run(m: map<string, Entry>, calls: seq<Call>): (t: Trace)
    ensures |t.allowed| == |calls|
    decreases |calls|
  {
    if calls == [] then Trace([], m)
    else
      var d := Step(m, calls[0].id, calls[0].now);
      var rest := Run(d.entries, calls[1..]);
      Trace([d.allowed] + rest.allowed, rest.entries)
  }

  /** How many of the calls made by `id` were allowed. */
  function AllowedFor(calls: seq<Call>, allowed: seq<bool>, id: string): nat
    requires |allowed| == |calls|
  {
    if calls == [] then 0
    else (if calls[0].id == id && allowed[0] then 1 else 0) + AllowedFor(calls[1..], allowed[1..], id)
  }

  /** True when every call made by `id` happens no later than `deadline`. */
  ghost predicate WithinWindow(calls: seq<Call>, id: string, deadline: int)
  {
    forall i :: 0 <= i < |calls| && calls[i].id == id ==> calls[i].now <= deadline
  }

  /**
   * Once `id` has an entry with `count` uses, no sequence of calls — whatever
   * other identities do in between — is allowed more than MaxPerWindow - count
   * more times for `id` before the entry's reset time.
   */
  lemma {:induction false} WindowCap(m: map<string, Entry>, calls: seq<Call>, id: string)
    requires id in m && m[id].count <= MaxPerWindow
    requires WithinWindow(calls, id, m[id].resetTime)
    ensures AllowedFor(calls, Run(m, calls).allowed, id) <= MaxPerWindow - m[id].count
    decreases |calls|
  {
    if calls != [] {
      var d := Step(m, calls[0].id, calls[0].now);
      assert WithinWindow(calls[1..], id, m[id].resetTime) by {
        forall i | 0 <= i < |calls[1..]| && calls[1..][i].id == id
          ensures calls[1..][i].now <= m[id].resetTime
        {
          assert calls[1..][i] == calls[i + 1];
        }
      }
      assert d.entries[id].resetTime == m[id].resetTime;
      WindowCap(d.entries, calls[1..], id);
      var t := Run(m, calls);
      assert t.allowed[1..] == Run(d.entries, calls[1..]).allowed;
    }
  }

  /**
   * The first call of a fresh window and every later call by the same identity
   * up to the window's end are, together, allowed at most MaxPerWindow times.
   */
  lemma FreshWindowCap(m: map<string, Entry>, first: Call, later: seq<Call>)
    requires OpensWindow(m, first.id, first.now)
    requires WithinWindow(later, first.id, first.now + WindowMs)
    ensures AllowedFor([first] + later, Run(m, [first] + later).allowed, first.id) <= MaxPerWindow
  {
    var d := Step(m, first.id, first.now);
    assert ([first] + later)[1..] == later;
    WindowCap(d.entries, later, first.id);
  }

  /**
   * When every call belongs to `id` and falls inside its current window, the
   * verdicts are exactly: allowed for the remaining MaxPerWindow - count calls,
   * rejected from then on.
   */
  lemma {:induction false} WindowVerdicts(m: map<string, Entry>, calls: seq<Call>, id: string)
    requires id in m && m[id].count <= MaxPerWindow
    requires forall i :: 0 <= i < |calls| ==> calls[i].id == id && calls[i].now <= m[id].resetTime
    ensures forall i :: 0 <= i < |calls| ==>
      Run(m, calls).allowed[i] == (i < MaxPerWindow - m[id].count)
    decreases |calls|
  {
    if calls != [] {
      var d := Step(m, id, calls[0].now);
      assert calls[0].id == id;
      assert d.entries[id].resetTime == m[id].resetTime;
      assert forall i :: 0 <= i < |calls[1..]| ==> calls[1..][i] == calls[i + 1];
      WindowVerdicts(d.entries, calls[1..], id);
      var t := Run(m, calls);
      assert t.allowed == [d.allowed] + Run(d.entries, calls[1..]).allowed;
      forall i | 0 <= i < |calls|
        ensures t.allowed[i] == (i < MaxPerWindow - m[id].count)
      {
        if i > 0 {
          assert t.allowed[i] == Run(d.entries, calls[1..]).allowed[i - 1];
        }
      }
    }
  }

  /**
   * Six calls by one identity, the first opening a fresh window and the other
   * five no later than its end: the first five are allowed and the sixth is
   * rejected.
   */
  lemma SixthCallRejected(m: map<string, Entry>, id: string, start: int, later: seq<int>)
    requires OpensWindow(m, id, start)
    requires |later| == 5
    requires forall i :: 0 <= i < |later| ==> later[i] <= start + WindowMs
    ensures Run(m, [Call(id, start)] + seq(5, i requires 0 <= i < 5 => Call(id, later[i]))).allowed
      == [true, true, true, true, true, false]
  {
    var calls := seq(5, i requires 0 <= i < 5 => Call(id, later[i]));
    var d := Step(m, id, start);
    assert ([Call(id, start)] + calls)[1..] == calls;
    WindowVerdicts(d.entries, calls, id);
    var t := Run(d.entries, calls);
    assert t.allowed == [true, true, true, true, false];
  }

  /**
   * The limiter object: the process-wide map the source keeps at module level.
   */
  class RateLimiter {
    var entries: map<string, Entry>

    ghost predicate Valid()
      reads this
    {
      CountsInRange(entries)
    }

    /** A new process starts with no entries. */
    constructor ()
      ensures Valid() && entries == map[]
    {
      entries := map[];
    }

    /** Whether `id` may submit at time `now`, charging its window when it may. */
    method Check(id: string, now: int) returns (allowed: bool)
      requires Valid()
      modifies this
      ensures Valid()
      ensures Decision(allowed, entries) == Step(old(entries), id, now)
      // a missing or expired entry is replaced by a fresh window holding one use
      ensures OpensWindow(old(entries), id, now) ==>
        allowed && entries == old(entries)[id := Entry(1, now + WindowMs)]
      // a full window rejects and leaves the map as it was
      ensures !OpensWindow(old(entries), id, now) && old(entries)[id].count >= MaxPerWindow ==>
        !allowed && entries == old(entries)
      // otherwise one more use is counted, with the same reset time
      ensures !OpensWindow(old(entries), id, now) && old(entries)[id].count < MaxPerWindow ==>
        allowed && entries == old(entries)[id := Entry(old(entries)[id].count + 1, old(entries)[id].resetTime)]
    {
      if id !in entries || now > entries[id].resetTime {
        entries := entries[id := Entry(1, now + WindowMs)];
        return true;
      }
      var limit := entries[id];
      if limit.count >= MaxPerWindow {
        return false;
      }
      entries := entries[id := limit.(count := limit.count + 1)];
      allowed := true;
    }
  }
}
