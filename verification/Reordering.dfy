/** Reorder repair by the jitter buffer: any good schedule of punctual arrivals restores time order. */
module Reordering {
  import opened PtpTimes
  import opened JitterBuffers

  /** Each packet is pushed before any drain reading has reached its presentation time. */
  ghost predicate Punctual(arrivals: seq<seq<Buffered>>, readings: seq<PtpTime>) {
    && |arrivals| == |readings|
    && forall i, j, b :: 0 <= i < j < |arrivals| && b in arrivals[j] ==> AsNanos(readings[i]) < Time(b)
  }

  ghost predicate StrictlyAscending(s: seq<Buffered>) {
    forall i, j :: 0 <= i < j < |s| ==> Time(s[i]) < Time(s[j])
  }

  /** Whatever is in a longer prefix but not, or less often, in a shorter one arrived in between. */
  lemma {:induction false} ArrivedBetween(arrivals: seq<seq<Buffered>>, low: nat, high: nat, b: Buffered)
    requires low <= high <= |arrivals|
    requires multiset(Flat(arrivals[..low]))[b] < multiset(Flat(arrivals[..high]))[b]
    ensures exists j :: low <= j < high && b in arrivals[j]
    decreases high
  {
    if low < high {
      var before := arrivals[..high - 1];
      assert arrivals[..high] == before + [arrivals[high - 1]];
      FlatSnoc(before, arrivals[high - 1]);
      if b !in arrivals[high - 1] {
        assert multiset(arrivals[high - 1])[b] == 0;
        ArrivedBetween(arrivals, low, high - 1, b);
      }
    }
  }

  lemma {:induction false} PrefixGrows(groups: seq<seq<Buffered>>, low: nat, high: nat)
    requires low <= high <= |groups|
    ensures multiset(Flat(groups[..low])) <= multiset(Flat(groups[..high]))
    decreases high
  {
    if low < high {
      assert groups[..high] == groups[..high - 1] + [groups[high - 1]];
      FlatSnoc(groups[..high - 1], groups[high - 1]);
      PrefixGrows(groups, low, high - 1);
    }
  }

  /** What a later pass releases is strictly in the future of every earlier pass's reading. */
  lemma LaterIsFuture(arrivals: seq<seq<Buffered>>, readings: seq<PtpTime>, passes: seq<seq<Buffered>>,
                      i: nat, n: nat, b: Buffered)
    requires GoodSchedule(arrivals, readings, passes) && Punctual(arrivals, readings)
    requires i < n < |passes| && b in passes[n]
    ensures AsNanos(readings[i]) < Time(b)
  {
    hide *;
    PassIsGood(arrivals, readings, passes, i);
    PassIsGood(arrivals, readings, passes, n);
    ReleasedAgain(arrivals, passes, i, n, b);
    if b in PendingAfter(arrivals, passes, i + 1) {
      StillPending(PendingAfter(arrivals, passes, i + 1), readings[i], b);
    } else {
      NotPending(arrivals, passes, i + 1, b);
      ArrivedBetween(arrivals, i + 1, n + 1, b);
      var j :| i + 1 <= j < n + 1 && b in arrivals[j];
      ArrivesInTime(arrivals, readings, i, j, b);
    }
  }

  lemma PassIsGood(arrivals: seq<seq<Buffered>>, readings: seq<PtpTime>, passes: seq<seq<Buffered>>, i: nat)
    requires GoodSchedule(arrivals, readings, passes) && i < |passes|
    ensures |arrivals| == |readings| == |passes|
    ensures Conserved(arrivals, passes, i + 1)
    ensures Ascending(passes[i]) && AllDue(passes[i], readings[i])
    ensures AllFuture(PendingAfter(arrivals, passes, i + 1), readings[i])
  {
    hide Conserved, Ascending, AllDue, AllFuture, PendingAfter;
    assert GoodPass(arrivals, readings, passes, i);
  }

  lemma StillPending(pending: multiset<Buffered>, reading: PtpTime, b: Buffered)
    requires AllFuture(pending, reading) && b in pending
    ensures AsNanos(reading) < Time(b)
  {
    hide AsNanos, Time;
  }

  lemma NotPending(arrivals: seq<seq<Buffered>>, passes: seq<seq<Buffered>>, n: nat, b: Buffered)
    requires n <= |arrivals| && n <= |passes| && b !in PendingAfter(arrivals, passes, n)
    ensures multiset(Flat(arrivals[..n]))[b] <= multiset(Flat(passes[..n]))[b]
  {
    hide Flat;
  }

  lemma ArrivesInTime(arrivals: seq<seq<Buffered>>, readings: seq<PtpTime>, i: nat, j: nat, b: Buffered)
    requires Punctual(arrivals, readings) && i < j < |arrivals| && b in arrivals[j]
    ensures AsNanos(readings[i]) < Time(b)
  {
    hide AsNanos, Time;
  }

  /** A release in pass `n` is one more than those up to pass `i`, and had arrived. */
  lemma ReleasedAgain(arrivals: seq<seq<Buffered>>, passes: seq<seq<Buffered>>, i: nat, n: nat, b: Buffered)
    requires i < n < |passes| && n < |arrivals| && b in passes[n]
    requires Conserved(arrivals, passes, n + 1)
    ensures multiset(Flat(passes[..i + 1]))[b] < multiset(Flat(arrivals[..n + 1]))[b]
  {
    assert passes[..n + 1] == passes[..n] + [passes[n]];
    FlatSnoc(passes[..n], passes[n]);
    PrefixGrows(passes, i + 1, n);
    hide Flat;
    var before, pass := Flat(passes[..n]), passes[n];
    assert multiset(before + pass)[b] == multiset(before)[b] + multiset(pass)[b];
    assert multiset(pass)[b] > 0;
  }

  lemma {:induction false} InFlat(groups: seq<seq<Buffered>>, b: Buffered)
    requires b in Flat(groups)
    ensures exists i :: 0 <= i < |groups| && b in groups[i]
    decreases |groups|
  {
    var last := |groups| - 1;
    if b !in groups[last] {
      InFlat(groups[..last], b);
      var i :| 0 <= i < last && b in groups[..last][i];
      assert b in groups[i];
    }
  }

  lemma AscendingConcat(s: seq<Buffered>, t: seq<Buffered>)
    requires Ascending(s) && Ascending(t)
    requires forall x, y :: x in s && y in t ==> Time(x) <= Time(y)
    ensures Ascending(s + t)
  {
    hide Time;
    forall i, j | 0 <= i < j < |s + t|
      ensures Time((s + t)[i]) <= Time((s + t)[j])
    {
      if i < |s| <= j {
        assert s[i] in s && t[j - |s|] in t;
      }
    }
  }

  lemma {:induction false} PrefixAscending(arrivals: seq<seq<Buffered>>, readings: seq<PtpTime>,
                                           passes: seq<seq<Buffered>>, n: nat)
    requires GoodSchedule(arrivals, readings, passes) && Punctual(arrivals, readings)
    requires n <= |passes|
    ensures Ascending(Flat(passes[..n]))
  {
    if n > 0 {
      var before := passes[..n - 1];
      PrefixAscending(arrivals, readings, passes, n - 1);
      assert passes[..n] == before + [passes[n - 1]];
      FlatSnoc(before, passes[n - 1]);
      forall x, y | x in Flat(before) && y in passes[n - 1]
        ensures Time(x) <= Time(y)
      {
        InFlat(before, x);
        var i :| 0 <= i < |before| && x in before[i];
        LaterIsFuture(arrivals, readings, passes, i, n - 1, y);
        assert GoodPass(arrivals, readings, passes, i);
      }
      assert GoodPass(arrivals, readings, passes, n - 1);
      AscendingConcat(Flat(before), passes[n - 1]);
    }
  }

  /** With punctual arrivals the whole run releases in nondecreasing presentation time. */
  lemma ReleasesAscend(arrivals: seq<seq<Buffered>>, readings: seq<PtpTime>, passes: seq<seq<Buffered>>)
    requires GoodSchedule(arrivals, readings, passes) && Punctual(arrivals, readings)
    ensures Ascending(Flat(passes))
  {
    PrefixAscending(arrivals, readings, passes, |passes|);
    assert passes[..|passes|] == passes;
  }

  /** Distinct times leave only one way to be in order. */
  lemma {:induction false} OrderIsUnique(released: seq<Buffered>, sent: seq<Buffered>)
    requires Ascending(released) && StrictlyAscending(sent)
    requires multiset(released) == multiset(sent)
    ensures released == sent
    decreases |sent|
  {
    assert |released| == |multiset(released)| == |multiset(sent)| == |sent|;
    if sent != [] {
      FirstIsFirst(released, sent);
      TailBag(released);
      TailBag(sent);
      OrderIsUnique(released[1..], sent[1..]);
    }
  }

  lemma TailBag(s: seq<Buffered>)
    requires s != []
    ensures multiset(s[1..]) == multiset(s) - multiset{s[0]}
  {
    assert s == [s[0]] + s[1..];
  }

  lemma FirstIsFirst(released: seq<Buffered>, sent: seq<Buffered>)
    requires Ascending(released) && StrictlyAscending(sent)
    requires multiset(released) == multiset(sent) && sent != [] && released != []
    ensures released[0] == sent[0]
  {
    hide Time;
    assert released[0] in multiset(sent) && sent[0] in multiset(released);
    var i :| 0 <= i < |sent| && sent[i] == released[0];
    var j :| 0 <= j < |released| && released[j] == sent[0];
  }

  /**
   * Reorder repair: if a good schedule of punctual arrivals empties the buffer, and what arrived is,
   * in any order, a sequence of packets with strictly increasing presentation times, then what is
   * released is exactly that sequence.
   */
  lemma {:induction false} ReorderRepair(arrivals: seq<seq<Buffered>>, readings: seq<PtpTime>,
                                         passes: seq<seq<Buffered>>, sent: seq<Buffered>)
    requires GoodSchedule(arrivals, readings, passes) && Punctual(arrivals, readings)
    requires PendingAfter(arrivals, passes, |passes|) == multiset{}
    requires multiset(Flat(arrivals)) == multiset(sent) && StrictlyAscending(sent)
    ensures Flat(passes) == sent
  {
    ReleasesAscend(arrivals, readings, passes);
    AllReleased(arrivals, readings, passes);
    hide Flat, Ascending, StrictlyAscending;
    OrderIsUnique(Flat(passes), sent);
  }

  /** With nothing left buffered the releases are what arrived. */
  lemma AllReleased(arrivals: seq<seq<Buffered>>, readings: seq<PtpTime>, passes: seq<seq<Buffered>>)
    requires GoodSchedule(arrivals, readings, passes)
    requires PendingAfter(arrivals, passes, |passes|) == multiset{}
    ensures multiset(Flat(passes)) == multiset(Flat(arrivals))
  {
    hide Ascending, AllDue, AllFuture;
    assert arrivals[..|passes|] == arrivals && passes[..|passes|] == passes;
    if passes == [] {
      EmptyFlat();
    } else {
      assert GoodPass(arrivals, readings, passes, |passes| - 1);
      hide Flat;
      BagsEqual(multiset(Flat(arrivals)), multiset(Flat(passes)));
    }
  }

  lemma BagsEqual(a: multiset<Buffered>, b: multiset<Buffered>)
    requires b <= a && a - b == multiset{}
    ensures a == b
  {
    assert a == (a - b) + b;
  }

  lemma EmptyFlat()
    ensures Flat<Buffered>([]) == []
  {
  }
}
