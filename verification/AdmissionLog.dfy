/** What a log-style rate limiter promises, said on the complete log of its admissions: at most
    `limit` of them in any window. The limiters themselves keep only the recent part. */
module AdmissionLog {
  /** Whether an admission exactly one window old still counts. */
  datatype Edge = Closed | Open

  datatype Rule = Rule(limit: nat, window: real, edge: Edge) {
    predicate InWindow(now: real, t: real) {
      if edge.Closed? then now - window <= t else now - window < t
    }
  }

  /** The entries of a log that count at `now`, in order. */
  function Recent(rule: Rule, now: real, log: seq<real>): seq<real> {
    if log == [] then []
    else
      var t := log[|log| - 1];
      Recent(rule, now, log[..|log| - 1]) + if rule.InWindow(now, t) then [t] else []
  }

  predicate Permits(rule: Rule, log: seq<real>, now: real) {
    |Recent(rule, now, log)| < rule.limit
  }

  /** Every admission in the log was permitted by the ones before it. */
  predicate Admissible(rule: Rule, log: seq<real>) {
    log == [] || (Admissible(rule, log[..|log| - 1]) && Permits(rule, log[..|log| - 1], log[|log| - 1]))
  }

  ghost predicate Ordered(log: seq<real>) {
    forall i, j :: 0 <= i < j < |log| ==> log[i] <= log[j]
  }

  ghost predicate NoneAfter(log: seq<real>, now: real) {
    forall i :: 0 <= i < |log| ==> log[i] <= now
  }

  /** How many admissions lie in the window that ends at `end`, wherever it is in the run. */
  function Held(rule: Rule, end: real, log: seq<real>): nat {
    if log == [] then 0
    else
      var t := log[|log| - 1];
      Held(rule, end, log[..|log| - 1]) + if t <= end && rule.InWindow(end, t) then 1 else 0
  }

  lemma {:induction false} HeldWithinRecent(rule: Rule, earlier: real, end: real, log: seq<real>)
    requires earlier <= end
    ensures Held(rule, end, log) <= |Recent(rule, earlier, log)|
  {
    if log != [] {
      HeldWithinRecent(rule, earlier, end, log[..|log| - 1]);
    }
  }

  lemma {:induction false} NothingHeld(rule: Rule, end: real, log: seq<real>)
    requires forall t :: t in log ==> !rule.InWindow(end, t)
    ensures Held(rule, end, log) == 0 && Recent(rule, end, log) == []
  {
    if log != [] {
      NothingHeld(rule, end, log[..|log| - 1]);
    }
  }

  /** No window of the rule's length, anywhere in the run, holds more than `limit` admissions. */
  lemma {:induction false} AnyWindowWithinLimit(rule: Rule, log: seq<real>, end: real)
    requires Ordered(log) && Admissible(rule, log)
    ensures Held(rule, end, log) <= rule.limit
  {
    if log != [] {
      var before, t := log[..|log| - 1], log[|log| - 1];
      if t <= end {
        if rule.InWindow(end, t) {
          HeldWithinRecent(rule, t, end, before);
        } else {
          NothingHeld(rule, end, log);
        }
      } else {
        AnyWindowWithinLimit(rule, before, end);
      }
    }
  }

  /** Dropping entries that no longer count changes nothing. */
  lemma {:induction false} RecentDrop(rule: Rule, now: real, gone: seq<real>, kept: seq<real>)
    requires forall t :: t in gone ==> !rule.InWindow(now, t)
    ensures Recent(rule, now, gone + kept) == Recent(rule, now, kept)
  {
    if kept == [] {
      assert gone + kept == gone;
      NothingHeld(rule, now, gone);
    } else {
      RecentDrop(rule, now, gone, kept[..|kept| - 1]);
      assert (gone + kept)[..|gone + kept| - 1] == gone + kept[..|kept| - 1];
    }
  }

  lemma {:induction false} RecentAll(rule: Rule, now: real, log: seq<real>)
    requires forall t :: t in log ==> rule.InWindow(now, t)
    ensures Recent(rule, now, log) == log
  {
    if log != [] {
      RecentAll(rule, now, log[..|log| - 1]);
    }
  }

  lemma {:induction false} RecentMembers(rule: Rule, now: real, log: seq<real>)
    ensures forall t :: t in Recent(rule, now, log) <==> t in log && rule.InWindow(now, t)
    ensures |Recent(rule, now, log)| <= |log|
  {
    if log != [] {
      RecentMembers(rule, now, log[..|log| - 1]);
      assert log == log[..|log| - 1] + [log[|log| - 1]];
    }
  }

  lemma RecentOrdered(rule: Rule, now: real, log: seq<real>)
    requires Ordered(log)
    ensures Ordered(Recent(rule, now, log))
  {
    var dropped := SuffixOf(rule, now, log);
    var kept := Recent(rule, now, log);
    assert forall i :: 0 <= i < |kept| ==> kept[i] == log[|dropped| + i];
  }

  /** Filtering twice with growing times, or with a shorter window inside a longer one, is
      filtering once. */
  lemma {:induction false} RecentTwice(first: Rule, early: real, second: Rule, late: real, log: seq<real>)
    requires forall t :: second.InWindow(late, t) ==> first.InWindow(early, t)
    ensures Recent(second, late, Recent(first, early, log)) == Recent(second, late, log)
  {
    if log != [] {
      var before, t := log[..|log| - 1], log[|log| - 1];
      RecentTwice(first, early, second, late, before);
      if !first.InWindow(early, t) {
        assert !second.InWindow(late, t);
        assert Recent(first, early, log) == Recent(first, early, before);
      }
    }
  }

  /** Just after a check the recent part is at most the limit, so a denial means it is exactly
      the limit. */
  lemma RecentAtMostLimit(rule: Rule, log: seq<real>, now: real)
    requires Ordered(log) && Admissible(rule, log) && NoneAfter(log, now)
    ensures |Recent(rule, now, log)| <= rule.limit
  {
    AnyWindowWithinLimit(rule, log, now);
    AllHeld(rule, log, now);
  }

  lemma {:induction false} AllHeld(rule: Rule, log: seq<real>, now: real)
    requires NoneAfter(log, now)
    ensures Held(rule, now, log) == |Recent(rule, now, log)|
  {
    if log != [] {
      AllHeld(rule, log[..|log| - 1], now);
    }
  }

  /** Right after an admission the window holds what was recent before, and it. */
  lemma HeldAfterAdmission(rule: Rule, log: seq<real>, now: real)
    requires NoneAfter(log, now) && rule.window > 0.0
    ensures Held(rule, now, log + [now]) == |Recent(rule, now, log)| + 1
  {
    AllHeld(rule, log, now);
    assert (log + [now])[..|log|] == log;
  }

  /** The instant at which the oldest admission of the window leaves it, with no other admission in
      between: before it no request is permitted, strictly later every request is, and at the instant
      itself it is permitted exactly when the window is open. */
  lemma PermittedOnceOldestLeaves(rule: Rule, log: seq<real>, now: real, later: real)
    requires rule.limit >= 1 && rule.window > 0.0
    requires Ordered(log) && Admissible(rule, log) && NoneAfter(log, now)
    requires !Permits(rule, log, now) && now <= later
    ensures Recent(rule, now, log) != []
    ensures var leaves := Recent(rule, now, log)[0] + rule.window;
            Permits(rule, log, later) <==> later > leaves || (later == leaves && rule.edge.Open?)
  {
    var kept := Recent(rule, now, log);
    RecentAtMostLimit(rule, log, now);
    RecentOrdered(rule, now, log);
    RecentTwice(rule, now, rule, later, log);
    var leaves := kept[0] + rule.window;
    assert kept == [kept[0]] + kept[1..];
    if later > leaves || (later == leaves && rule.edge.Open?) {
      RecentDrop(rule, later, [kept[0]], kept[1..]);
      RecentMembers(rule, later, kept[1..]);
    } else {
      RecentAll(rule, later, kept);
    }
  }

  /** The recent part a limiter keeps, next to what it has dropped: together they are the whole
      log, and nothing dropped can count at `clock` or later. */
  ghost predicate Faithful(rule: Rule, gone: seq<real>, kept: seq<real>, clock: real) {
    && Ordered(gone + kept) && Admissible(rule, gone + kept)
    && NoneAfter(gone + kept, clock)
    && (forall t :: t in gone ==> !rule.InWindow(clock, t))
  }

  /** An admission at `now` keeps the parts faithful. */
  lemma FaithfulAdmit(rule: Rule, gone: seq<real>, kept: seq<real>, now: real)
    requires Faithful(rule, gone, kept, now) && Permits(rule, gone + kept, now)
    ensures Faithful(rule, gone, kept + [now], now)
  {
    assert gone + (kept + [now]) == (gone + kept) + [now];
    assert forall t :: t in gone ==> !rule.InWindow(now, t);
  }

  /** Filtering the kept part: what is dropped joins `gone`, in order. */
  lemma FilterKept(rule: Rule, gone: seq<real>, kept: seq<real>, now: real) returns (dropped: seq<real>)
    requires Faithful(rule, gone, kept, now)
    ensures kept == dropped + Recent(rule, now, kept)
    ensures Faithful(rule, gone + dropped, Recent(rule, now, kept), now)
    ensures (gone + dropped) + Recent(rule, now, kept) == gone + kept
    ensures Recent(rule, now, gone + kept) == Recent(rule, now, kept)
  {
    assert forall i, j :: 0 <= i < j < |kept| ==>
      kept[i] == (gone + kept)[|gone| + i] && kept[j] == (gone + kept)[|gone| + j];
    dropped := SuffixOf(rule, now, kept);
    RecentDrop(rule, now, gone, kept);
    assert (gone + dropped) + Recent(rule, now, kept) == gone + kept;
  }

  /** In an ordered log the entries that count are a suffix. */
  lemma {:induction false} SuffixOf(rule: Rule, now: real, log: seq<real>) returns (dropped: seq<real>)
    requires Ordered(log)
    ensures log == dropped + Recent(rule, now, log)
    ensures forall t :: t in dropped ==> !rule.InWindow(now, t)
  {
    dropped := [];
    if log != [] {
      var t := log[|log| - 1];
      if rule.InWindow(now, t) {
        dropped := SuffixOf(rule, now, log[..|log| - 1]);
        assert log == log[..|log| - 1] + [t];
      } else {
        dropped := log;
        NothingHeld(rule, now, log);
      }
    }
  }

  /** The list kept is a suffix of the log, and what it lacks can no longer count. */
  ghost predicate Keeps(rule: Rule, kept: seq<real>, log: seq<real>, clock: real) {
    exists gone :: gone + kept == log && Faithful(rule, gone, kept, clock)
  }

  lemma KeepsLater(rule: Rule, kept: seq<real>, log: seq<real>, clock: real, now: real)
    requires Keeps(rule, kept, log, clock) && clock <= now
    ensures Keeps(rule, kept, log, now) && NoneAfter(log, now)
  {
    var gone :| gone + kept == log && Faithful(rule, gone, kept, clock);
  }

  lemma KeepsMeans(rule: Rule, kept: seq<real>, log: seq<real>, clock: real)
    requires Keeps(rule, kept, log, clock)
    ensures Ordered(log) && Admissible(rule, log) && NoneAfter(log, clock)
  {
  }

  /** Filtering the kept list answers for the whole log, and keeps it. */
  lemma KeepsFilter(rule: Rule, kept: seq<real>, log: seq<real>, clock: real, now: real)
    requires Keeps(rule, kept, log, clock) && clock <= now
    ensures Keeps(rule, Recent(rule, now, kept), log, now)
    ensures Recent(rule, now, kept) == Recent(rule, now, log)
  {
    var gone :| gone + kept == log && Faithful(rule, gone, kept, clock);
    var dropped := FilterKept(rule, gone, kept, now);
  }

  lemma KeepsAdmit(rule: Rule, kept: seq<real>, log: seq<real>, now: real)
    requires Keeps(rule, kept, log, now) && Permits(rule, log, now)
    ensures Keeps(rule, kept + [now], log + [now], now)
  {
    var gone :| gone + kept == log && Faithful(rule, gone, kept, now);
    FaithfulAdmit(rule, gone, kept, now);
    assert gone + (kept + [now]) == log + [now];
  }

  lemma KeepsNothing(rule: Rule, clock: real)
    ensures Keeps(rule, [], [], clock)
  {
    var none: seq<real> := [];
    assert none + none == none && Faithful(rule, none, none, clock);
  }
}
