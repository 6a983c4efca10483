/** The history log: a newest-first list of submitted invoices, capped at 25
    entries. An entry equal to the current head is not admitted again. */
module HistoryLog {

  /** The most entries the log keeps. */
  const Capacity: nat := 25

  function Min(a: int, b: int): int {
    if a <= b then a else b
  }

  /** The log after submitting `entry`: unchanged when `entry` equals the head,
      otherwise `entry` in front of the first 24 older entries. */
  function Admit<T(==)>(log: seq<T>, entry: T): (r: seq<T>)
    ensures |r| > 0 && r[0] == entry
    ensures r == log <==> |log| > 0 && log[0] == entry
    ensures r != log ==> r[1..] == log[..Min(Capacity - 1, |log|)]
    ensures |log| <= Capacity ==> |r| <= Capacity
    ensures |r| <= |log| + 1
  {
    if |log| > 0 && log[0] == entry then log
    else [entry] + log[..Min(Capacity - 1, |log|)]
  }

  /** Two submissions in a row of the same entry add it once: the second
      finds it at the head. */
  lemma AdmitTwice<T>(log: seq<T>, entry: T)
    ensures Admit(Admit(log, entry), entry) == Admit(log, entry)
  {
  }

  /** The first `n` entries of `s` (all of them when there are fewer). */
  function Take<T>(s: seq<T>, n: nat): (r: seq<T>)
    ensures |r| == Min(n, |s|) && r <= s
  {
    if |s| <= n then s else s[..n]
  }

  /** The entries of `s`, last one first. */
  function NewestFirst<T>(s: seq<T>): (r: seq<T>)
    ensures |r| == |s|
  {
    if s == [] then [] else [s[|s| - 1]] + NewestFirst(s[..|s| - 1])
  }

  /** The log after submitting each of `entries` in turn, oldest first. */
  function AdmitAll<T(==)>(log: seq<T>, entries: seq<T>): seq<T> {
    if entries == [] then log
    else Admit(AdmitAll(log, entries[..|entries| - 1]), entries[|entries| - 1])
  }

  /** No submission in `entries` is a repeat of the one before it (the first
      one is compared with the head of `log`). */
  predicate NoRepeats<T(==)>(log: seq<T>, entries: seq<T>) {
    (|entries| > 0 && |log| > 0 ==> entries[0] != log[0]) &&
    forall i :: 0 < i < |entries| ==> entries[i] != entries[i - 1]
  }

  lemma {:induction false} TakeOfTake<T>(x: T, s: seq<T>, n: nat)
    requires n > 0
    ensures Take([x] + Take(s, n - 1), n) == Take([x] + s, n)
  {
    if |s| > n - 1 {
      assert ([x] + s)[..n] == [x] + s[..n - 1];
    }
  }

  /** Submitting a sequence of entries with no immediate repeat keeps exactly
      the 25 most recent entries (older log entries behind them), newest first. */
  lemma {:induction false} AdmitAllKeepsNewest<T>(log: seq<T>, entries: seq<T>)
    requires NoRepeats(log, entries)
    requires |entries| > 0 || |log| <= Capacity
    ensures AdmitAll(log, entries) == Take(NewestFirst(entries) + log, Capacity)
  {
    if entries == [] {
    } else {
      var init, last := entries[..|entries| - 1], entries[|entries| - 1];
      assert NoRepeats(log, init);
      var before := AdmitAll(log, init);
      if init == [] {
        assert before == log;
        assert NewestFirst(entries) == [last];
        if |log| <= Capacity - 1 {
          assert Take(log, Capacity - 1) == log;
        }
        TakeOfTake(last, log, Capacity);
      } else {
        AdmitAllKeepsNewest(log, init);
        assert before == Take(NewestFirst(init) + log, Capacity);
        assert before[0] == init[|init| - 1] == entries[|entries| - 2];
        assert before[0] != last;
        assert Take(before, Capacity - 1) == Take(NewestFirst(init) + log, Capacity - 1);
        TakeOfTake(last, NewestFirst(init) + log, Capacity);
        assert NewestFirst(entries) + log == [last] + (NewestFirst(init) + log);
      }
    }
  }

  /** Twenty-six submissions with no immediate repeat leave the log full with
      the most recent 25, newest first: the first one is dropped. */
  lemma {:induction false} TwentySixSubmissions<T>(entries: seq<T>)
    requires |entries| == 26 && NoRepeats([], entries)
    ensures |AdmitAll([], entries)| == Capacity
    ensures AdmitAll([], entries) == NewestFirst(entries[1..])
  {
    AdmitAllKeepsNewest([], entries);
    assert NewestFirst(entries) + [] == NewestFirst(entries);
    NewestFirstDropsOldest(entries);
  }

  lemma {:induction false} NewestFirstDropsOldest<T>(s: seq<T>)
    requires |s| > 0
    ensures NewestFirst(s)[..|s| - 1] == NewestFirst(s[1..])
  {
    if |s| > 1 {
      var init := s[..|s| - 1];
      NewestFirstDropsOldest(init);
      assert init[1..] == s[1..][..|s| - 2];
      assert s[1..][|s| - 2] == s[|s| - 1];
    }
  }
}
