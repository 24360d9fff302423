/**
 * The pending collections of the barriers are `TArray`s used as sets: `AddUnique` (or a
 * `Contains` test followed by `Add`) puts an element at the end unless it is already there, and
 * `Remove` takes out every occurrence of an element and keeps the order of the rest.
 *
 * This module defines those two operations on sequences, proves what they do to membership,
 * duplicates and size, and counts the aggregate signals that a run of completion events
 * produces for the two handler shapes found in the source.
 */
module PendingSets {

  ghost predicate NoDuplicates<T>(s: seq<T>) {
    forall i, j :: 0 <= i < j < |s| ==> s[i] != s[j]
  }

  /** Every element of `a` also occurs in `b`. */
  ghost predicate AllIn<T>(a: seq<T>, b: seq<T>) {
    forall x :: x in a ==> x in b
  }

  /** Appending one element after a concatenation. */
  lemma AppendAssociates<T>(a: seq<T>, b: seq<T>, x: T)
    ensures a + b + [x] == a + (b + [x])
  {
  }

  /** `TArray::AddUnique`. */
  function AddUnique<T(==)>(s: seq<T>, x: T): seq<T> {
    if x in s then s else s + [x]
  }

  /** `AddUnique` of each element of `xs`, first to last, onto `s`. */
  function AddUniqueAll<T(==)>(s: seq<T>, xs: seq<T>): seq<T>
    decreases |xs|
  {
    if xs == [] then s else AddUnique(AddUniqueAll(s, xs[..|xs| - 1]), xs[|xs| - 1])
  }

  /** `TArray::Remove`: every occurrence of `x` is taken out, the rest keeps its order. */
  function Without<T(==)>(s: seq<T>, x: T): seq<T>
    decreases |s|
  {
    if s == [] then []
    else (if s[0] == x then [] else [s[0]]) + Without(s[1..], x)
  }

  lemma {:induction false} AddUniqueAllNoDuplicates<T>(s: seq<T>, xs: seq<T>)
    requires NoDuplicates(s)
    ensures NoDuplicates(AddUniqueAll(s, xs))
  {
    if xs != [] {
      AddUniqueAllNoDuplicates(s, xs[..|xs| - 1]);
    }
  }

  lemma {:induction false} AddUniqueAllMembers<T>(s: seq<T>, xs: seq<T>, x: T)
    ensures x in AddUniqueAll(s, xs) <==> x in s || x in xs
  {
    if xs != [] {
      var init := xs[..|xs| - 1];
      AddUniqueAllMembers(s, init, x);
      assert xs == init + [xs[|xs| - 1]];
    }
  }

  /** What was pending before stays pending, in front and in the same order. */
  lemma {:induction false} AddUniqueAllExtends<T>(s: seq<T>, xs: seq<T>)
    ensures |s| <= |AddUniqueAll(s, xs)| && AddUniqueAll(s, xs)[..|s|] == s
    decreases |xs|
  {
    if xs != [] {
      AddUniqueAllExtends(s, xs[..|xs| - 1]);
    }
  }

  /** One more element: the step an enumeration loop takes. */
  lemma AddUniqueAllStep<T>(s: seq<T>, xs: seq<T>, x: T)
    ensures AddUniqueAll(s, xs + [x]) == AddUnique(AddUniqueAll(s, xs), x)
  {
    assert (xs + [x])[..|xs|] == xs;
  }

  lemma HeadNotInTail<T>(s: seq<T>)
    requires NoDuplicates(s) && s != []
    ensures s[0] !in s[1..]
  {
    forall j | 0 <= j < |s| - 1 ensures s[1..][j] != s[0] {
      assert s[1..][j] == s[j + 1];
    }
  }

  /** A sequence without duplicates has as many elements as its set. */
  lemma {:induction false} DistinctCount<T>(s: seq<T>)
    requires NoDuplicates(s)
    ensures |set x | x in s| == |s|
  {
    if s != [] {
      var tail := s[1..];
      DistinctCount(tail);
      assert (set x | x in s) == (set x | x in tail) + {s[0]};
      HeadNotInTail(s);
    }
  }

  /** Starting from an empty collection, the barrier tracks exactly the distinct elements of `xs`. */
  lemma AddUniqueAllCount<T>(xs: seq<T>)
    ensures |AddUniqueAll([], xs)| == |set x | x in xs|
  {
    var r := AddUniqueAll([], xs);
    AddUniqueAllNoDuplicates([], xs);
    var tracked, listed := set y | y in r, set y | y in xs;
    forall x | x in tracked ensures x in listed {
      AddUniqueAllMembers([], xs, x);
    }
    forall x | x in listed ensures x in tracked {
      AddUniqueAllMembers([], xs, x);
    }
    assert tracked == listed;
    DistinctCount(r);
  }

  lemma {:induction false} WithoutMembers<T>(s: seq<T>, x: T, y: T)
    ensures y in Without(s, x) <==> y in s && y != x
  {
    if s != [] {
      WithoutMembers(s[1..], x, y);
      assert s == [s[0]] + s[1..];
    }
  }

  lemma {:induction false} WithoutNoDuplicates<T>(s: seq<T>, x: T)
    requires NoDuplicates(s)
    ensures NoDuplicates(Without(s, x))
  {
    if s != [] {
      WithoutNoDuplicates(s[1..], x);
      WithoutMembers(s[1..], x, s[0]);
      HeadNotInTail(s);
    }
  }

  /** Removing an element that is not there changes nothing. */
  lemma {:induction false} WithoutAbsent<T>(s: seq<T>, x: T)
    requires x !in s
    ensures Without(s, x) == s
  {
    if s != [] {
      WithoutAbsent(s[1..], x);
      assert s == [s[0]] + s[1..];
    }
  }

  /** Removing a present element of a duplicate-free collection shrinks it by exactly one. */
  lemma {:induction false} WithoutLength<T>(s: seq<T>, x: T)
    requires NoDuplicates(s) && x in s
    ensures |Without(s, x)| == |s| - 1
  {
    if s[0] == x {
      HeadNotInTail(s);
      WithoutAbsent(s[1..], x);
    } else {
      assert x in s[1..] by { assert s == [s[0]] + s[1..]; }
      WithoutLength(s[1..], x);
    }
  }

  /** A removal empties the collection exactly when `x` was all it held. */
  lemma WithoutEmpty<T>(s: seq<T>, x: T)
    ensures Without(s, x) == [] <==> AllIn(s, [x])
  {
    if Without(s, x) != [] {
      var y := Without(s, x)[0];
      WithoutMembers(s, x, y);
    } else {
      forall y | y in s ensures y in [x] {
        WithoutMembers(s, x, y);
      }
    }
  }

  /**
   * Aggregate signals scheduled by a GUARDED completion handler over a run of completion
   * events: an event whose element is pending removes it, and schedules a signal when that
   * removal empties the collection; an event for an element that is not pending does nothing.
   */
  function GuardedSignals<T(==)>(pending: seq<T>, events: seq<T>): nat
    decreases |events|
  {
    if events == [] then 0
    else if events[0] in pending then
      var rest := Without(pending, events[0]);
      (if rest == [] then 1 else 0) + GuardedSignals(rest, events[1..])
    else GuardedSignals(pending, events[1..])
  }

  /**
   * Aggregate signals scheduled by an UNGUARDED completion handler: every event removes its
   * element if present and then schedules a signal whenever the collection is empty.
   */
  function UnguardedSignals<T(==)>(pending: seq<T>, events: seq<T>): nat
    decreases |events|
  {
    if events == [] then 0
    else
      var rest := Without(pending, events[0]);
      (if rest == [] then 1 else 0) + UnguardedSignals(rest, events[1..])
  }

  /** The collection left once every event of a run of completions has removed its element. */
  function WithoutAll<T(==)>(pending: seq<T>, events: seq<T>): seq<T>
    decreases |events|
  {
    if events == [] then pending else WithoutAll(Without(pending, events[0]), events[1..])
  }

  /** After a run of completions an element is pending exactly when it was pending before and
      was never reported. */
  lemma {:induction false} WithoutAllMembers<T>(pending: seq<T>, events: seq<T>, x: T)
    ensures x in WithoutAll(pending, events) <==> x in pending && x !in events
    decreases |events|
  {
    if events != [] {
      WithoutAllMembers(Without(pending, events[0]), events[1..], x);
      WithoutMembers(pending, events[0], x);
      assert events == [events[0]] + events[1..];
    }
  }

  /** `n` copies of `x`, in a row: the timers set by `n` calls of the same handler. */
  function Repeat<T>(n: nat, x: T): (r: seq<T>)
    ensures |r| == n
    ensures forall k :: 0 <= k < n ==> r[k] == x
  {
    if n == 0 then [] else Repeat(n - 1, x) + [x]
  }

  /** All copies are alike, so one more in front is one more at the back. */
  lemma RepeatCons<T>(n: nat, x: T)
    ensures [x] + Repeat(n, x) == Repeat(n + 1, x)
  {
    assert forall k :: 0 <= k < n + 1 ==> ([x] + Repeat(n, x))[k] == x;
  }

  /** Concatenation regrouped. */
  lemma ConcatAssociates<T>(a: seq<T>, b: seq<T>, c: seq<T>)
    ensures a + b + c == a + (b + c)
  {
  }

  /** With a guarded handler, a non-empty pending collection signals once when its last element
      reports, and never again, however often completion events repeat. */
  lemma {:induction false} GuardedSignalsOnce<T>(pending: seq<T>, events: seq<T>)
    requires NoDuplicates(pending)
    ensures GuardedSignals(pending, events) == if pending != [] && AllIn(pending, events) then 1 else 0
    decreases |events|
  {
    if events == [] {
      if pending != [] { assert pending[0] in pending; }
    } else {
      var e, tail := events[0], events[1..];
      assert events == [e] + tail;
      if e in pending {
        var rest := Without(pending, e);
        WithoutNoDuplicates(pending, e);
        GuardedSignalsOnce(rest, tail);
        forall y ensures y in rest <==> y in pending && y != e {
          WithoutMembers(pending, e, y);
        }
        if rest == [] {
          assert GuardedSignals(rest, tail) == 0;
          assert AllIn(pending, events);
        } else {
          assert AllIn(pending, events) <==> AllIn(rest, tail);
        }
      } else {
        GuardedSignalsOnce(pending, tail);
        assert AllIn(pending, events) <==> AllIn(pending, tail);
      }
    }
  }

  /**
   * One whole barrier run with guarded handlers: the run signals at the end of enumeration when
   * nothing is pending, and otherwise through the completions. Either way the aggregate signal
   * is scheduled exactly once when every tracked element reports, and not at all before.
   */
  lemma BarrierRunSignalsOnce<T>(tracked: seq<T>, events: seq<T>)
    requires NoDuplicates(tracked)
    ensures (if tracked == [] then 1 else 0) + GuardedSignals(tracked, events)
         == if AllIn(tracked, events) then 1 else 0
  {
    GuardedSignalsOnce(tracked, events);
  }

  /**
   * The queue of a guarded barrier whose enumeration a gate can shut off: `q1` is the queue after
   * the enumeration and `q2` after the completions. A closed gate tracks nothing and signals
   * nothing; an open one signals once exactly when every tracked element reports.
   */
  lemma GatedBarrierQueue<T, U>(gateOpen: bool, tracked: seq<T>, events: seq<T>, x: U, q0: seq<U>, q1: seq<U>, q2: seq<U>)
    requires NoDuplicates(tracked)
    requires !gateOpen ==> tracked == [] && q1 == q0
    requires gateOpen ==> q1 == q0 + (if tracked == [] then [x] else [])
    requires q2 == q1 + Repeat(GuardedSignals(tracked, events), x)
    ensures q2 == q0 + Repeat(if gateOpen && AllIn(tracked, events) then 1 else 0, x)
  {
    BarrierRunSignalsOnce(tracked, events);
    assert Repeat(0, x) == [] && Repeat(1, x) == [x];
    if gateOpen && tracked == [] {
      assert q0 + [x] + [] == q0 + [x];
    }
  }

  /** With an unguarded handler, an empty collection signals again on every completion event. */
  lemma {:induction false} UnguardedSignalsWhenEmpty<T>(events: seq<T>)
    ensures UnguardedSignals([], events) == |events|
    decreases |events|
  {
    if events != [] {
      UnguardedSignalsWhenEmpty(events[1..]);
    }
  }

  /** An unguarded handler signals at least once exactly when some event arrives after every
      pending element has reported. */
  lemma {:induction false} UnguardedSignalsIff<T>(pending: seq<T>, events: seq<T>)
    requires NoDuplicates(pending)
    ensures UnguardedSignals(pending, events) > 0 <==> events != [] && AllIn(pending, events)
    decreases |events|
  {
    if events != [] {
      var e, tail := events[0], events[1..];
      assert events == [e] + tail;
      var rest := Without(pending, e);
      WithoutNoDuplicates(pending, e);
      UnguardedSignalsIff(rest, tail);
      forall y ensures y in rest <==> y in pending && y != e {
        WithoutMembers(pending, e, y);
      }
      WithoutEmpty(pending, e);
      if rest != [] {
        assert AllIn(pending, events) <==> AllIn(rest, tail);
        assert tail == [] ==> !AllIn(rest, tail) by {
          if tail == [] { assert rest[0] in rest; }
        }
      }
    }
  }

  /** The same duplicated completion schedules one signal with a guarded handler and two with
      an unguarded one. */
  lemma DuplicateCompletion<T>(x: T)
    ensures GuardedSignals([x], [x, x]) == 1
    ensures UnguardedSignals([x], [x, x]) == 2
  {
    var empty: seq<T> := [];
    assert Without([x], x) == empty by { assert [x][1..] == empty; }
    assert [x, x][1..] == [x];
    assert [x][1..] == empty;
    assert GuardedSignals(empty, [x]) == 0;
    assert UnguardedSignals(empty, [x]) == 1 by { assert Without(empty, x) == empty; }
  }
}
