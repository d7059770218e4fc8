/**
 * The averaging coroutine `calculate_average_coro` of Lab6-2/Lab6-2.cpp as an
 * explicit state machine.  One call of `Next` is one `resume()`: it runs the
 * coroutine body from the top of its `while (true)` loop to the next
 * `co_yield`, `co_return` or `break`.  The clock and the input stream become
 * parameters: `now` is the steady clock in whole milliseconds and `input` is
 * the outcome of `std::cin >> input`.
 */
module Unit {
  import opened Wrappers
  import opened Window

  /** A resume this many milliseconds or more after a zero input is allowed. */
  const CooldownMs: int := 1000

  /** The coroutine's lifecycle; `Violated` and `Finished` are both `done()`. */
  datatype Status = NotStarted | Suspended | Violated | Finished
  {
    predicate Terminal() { this == Violated || this == Finished }
  }

  /**
   * Everything the coroutine keeps between resumes: the window, the cooldown
   * flag and the time it was armed, the promise's published average and the
   * lifecycle status.
   */
  datatype State = State(
    history: seq<real>,
    zeroFlagActive: bool,
    lastZeroTime: int,
    currentAverage: real,
    status: Status)

  /** What one resume leaves behind, and what `resume()` returns. */
  datatype Transition = Transition(next: State, active: bool)

  /** A freshly created generator: suspended before its first statement. */
  function Init(): (s: State)
    ensures Invariant(s)
  {
    State([], false, 0, 0.0, NotStarted)
  }

  /**
   * What holds in every reachable state: the window respects its capacity and
   * holds no zero, the published value is the mean of the window, and a
   * generator that has not started is still in its initial state.
   */
  ghost predicate Invariant(s: State)
  {
    |s.history| <= Capacity &&
    (forall i :: 0 <= i < |s.history| ==> s.history[i] != 0.0) &&
    s.currentAverage == Mean(s.history) &&
    (s.status == NotStarted ==> s.history == [] && !s.zeroFlagActive)
  }

  /** The cooldown test: armed, and fewer than `CooldownMs` whole milliseconds since it was armed. */
  predicate TooSoon(s: State, now: int)
  {
    s.zeroFlagActive && now - s.lastZeroTime < CooldownMs
  }

  /**
   * The part of a resume after the cooldown check: read one input and either
   * finish, publish the mean of the window for a zero and arm the cooldown,
   * or push a non-zero sample and publish the mean of the new window.
   */
  function Consume(s: State, now: int, input: Option<real>): (r: Transition)
    // the stream is exhausted: finished, nothing published, window untouched
    ensures input.None? <==> !r.active
    ensures input.None? ==>
              r.next.status == Finished && r.next.history == s.history &&
              r.next.currentAverage == s.currentAverage
    // a zero: window untouched, cooldown armed now, mean of the window so far published
    ensures input == Some(0.0) ==>
              r.next.status == Suspended && r.next.history == s.history &&
              r.next.zeroFlagActive && r.next.lastZeroTime == now &&
              r.next.currentAverage == Mean(s.history)
    // a non-zero sample: it joins the window, the mean of the new window is published
    ensures input.Some? && input.value != 0.0 ==>
              r.next.status == Suspended && r.next.zeroFlagActive == s.zeroFlagActive &&
              r.next.history == Push(s.history, input.value) &&
              r.next.currentAverage == Mean(r.next.history)
    // the invariant is kept
    ensures Invariant(s) ==> Invariant(r.next)
  {
    match input
    case None => Transition(s.(status := Finished), false)
    case Some(x) =>
      if x == 0.0 then
        Transition(s.(zeroFlagActive := true, lastZeroTime := now,
                      currentAverage := Mean(s.history), status := Suspended), true)
      else
        var w := Push(s.history, x);
        Transition(s.(history := w, currentAverage := Mean(w), status := Suspended), true)
  }

  /** One `resume()` of the generator. */
  function Next(s: State, now: int, input: Option<real>): (r: Transition)
    // a generator that is done absorbs every resume
    ensures s.status.Terminal() ==> r == Transition(s, false)
    // resume() reports true exactly when the coroutine is suspended again
    ensures r.active <==> r.next.status == Suspended
    // nothing but a yield changes the published value or the window
    ensures !r.active ==> r.next.currentAverage == s.currentAverage && r.next.history == s.history
    // too soon after a zero: violation, nothing read, nothing published
    ensures !s.status.Terminal() && TooSoon(s, now) ==> r == Transition(s.(status := Violated), false)
    // otherwise the cooldown flag is cleared and one input is consumed
    ensures !s.status.Terminal() && !TooSoon(s, now) ==>
              r == Consume(s.(zeroFlagActive := false), now, input)
    // the invariant is kept
    ensures Invariant(s) ==> Invariant(r.next)
  {
    if s.status.Terminal() then Transition(s, false)
    else if TooSoon(s, now) then Transition(s.(status := Violated), false)
    else Consume(s.(zeroFlagActive := false), now, input)
  }

  /** One resume request from the driver: the clock reading and what the input stream gives. */
  datatype Event = Event(now: int, input: Option<real>)

  /** The state after a fresh generator has been resumed once per event, in order. */
  function Run(events: seq<Event>): (s: State)
    ensures Invariant(s)
    ensures events == [] ==> s == Init()
    ensures events != [] ==> s.status != NotStarted
  {
    if events == [] then Init()
    else
      var e := events[|events| - 1];
      Next(Run(events[..|events| - 1]), e.now, e.input).next
  }

  /** Once the generator is done, later resumes change nothing. */
  lemma {:induction false} DoneIsFinal(events: seq<Event>, more: seq<Event>)
    requires Run(events).status.Terminal()
    ensures Run(events + more) == Run(events)
  {
    if more != [] {
      var init := more[..|more| - 1];
      assert (events + more)[..|events + more| - 1] == events + init;
      DoneIsFinal(events, init);
    } else {
      assert events + more == events;
    }
  }

  /** The samples of a stream of successful reads. */
  function Samples(events: seq<Event>): (xs: seq<real>)
    requires forall i :: 0 <= i < |events| ==> events[i].input.Some?
    ensures |xs| == |events|
    ensures forall i :: 0 <= i < |xs| ==> xs[i] == events[i].input.value
  {
    if events == [] then []
    else Samples(events[..|events| - 1]) + [events[|events| - 1].input.value]
  }

  /** Every event reads a non-zero number. */
  predicate AllNonZero(events: seq<Event>)
  {
    forall i :: 0 <= i < |events| ==> events[i].input.Some? && events[i].input.value != 0.0
  }

  /**
   * With no zero in the stream the cooldown is never armed, the window is the
   * last three samples read, and the published value is their mean.
   */
  lemma {:induction false} NonZeroRunKeepsLastThree(events: seq<Event>)
    requires AllNonZero(events)
    ensures !Run(events).zeroFlagActive
    ensures Run(events).history == LastN(Samples(events), Capacity)
    ensures Run(events).currentAverage == Mean(LastN(Samples(events), Capacity))
    ensures events != [] ==> Run(events).status == Suspended
  {
    if events != [] {
      var init := events[..|events| - 1];
      var e := events[|events| - 1];
      assert AllNonZero(init) by {
        forall i | 0 <= i < |init| ensures init[i] == events[i] { }
      }
      NonZeroRunKeepsLastThree(init);
      assert Samples(events) == Samples(init) + [e.input.value];
      PushKeepsLastThree(Samples(init), e.input.value);
    }
  }

  /** Up to three non-zero samples: the published value is the mean of all of them. */
  lemma ShortRunAveragesAll(events: seq<Event>)
    requires AllNonZero(events) && |events| <= Capacity
    ensures Run(events).currentAverage == Mean(Samples(events))
  {
    NonZeroRunKeepsLastThree(events);
  }

  /** Inputs older than the last three have no effect on the published value. */
  lemma OlderInputsForgotten(a: seq<Event>, b: seq<Event>, tail: seq<Event>)
    requires AllNonZero(a) && AllNonZero(b) && AllNonZero(tail)
    requires |tail| >= Capacity
    ensures Run(a + tail).currentAverage == Run(b + tail).currentAverage
  {
    assert AllNonZero(a + tail) && AllNonZero(b + tail);
    NonZeroRunKeepsLastThree(a + tail);
    NonZeroRunKeepsLastThree(b + tail);
    SamplesAppend(a, tail);
    SamplesAppend(b, tail);
    LastNForgetsPrefix(Samples(a), Samples(tail));
    LastNForgetsPrefix(Samples(b), Samples(tail));
  }

  /** The non-zero numbers read, in order: the samples a generator that is never refused would push. */
  function NonZeroReads(events: seq<Event>): (xs: seq<real>)
    ensures |xs| <= |events|
    ensures forall i :: 0 <= i < |xs| ==> xs[i] != 0.0
  {
    if events == [] then []
    else
      var e := events[|events| - 1];
      var init := NonZeroReads(events[..|events| - 1]);
      if e.input.Some? && e.input.value != 0.0 then init + [e.input.value] else init
  }

  /**
   * Zeros included: while the generator is still live, its window is the last
   * three non-zero numbers read, and so the published value is their mean.
   */
  lemma {:induction false} WindowIsLastThreeReads(events: seq<Event>)
    requires !Run(events).status.Terminal()
    ensures Run(events).history == LastN(NonZeroReads(events), Capacity)
    ensures Run(events).currentAverage == Mean(LastN(NonZeroReads(events), Capacity))
  {
    if events != [] {
      var init := events[..|events| - 1];
      var e := events[|events| - 1];
      // a done generator stays done, so the generator was live before the last resume too
      assert !Run(init).status.Terminal();
      WindowIsLastThreeReads(init);
      if e.input.Some? && e.input.value != 0.0 {
        PushKeepsLastThree(NonZeroReads(init), e.input.value);
      }
    }
  }

  /** Every sample in the window is a number some resume has read. */
  lemma {:induction false} WindowFromInputs(events: seq<Event>)
    ensures forall i :: 0 <= i < |Run(events).history| ==>
              exists j :: 0 <= j < |events| && events[j].input == Some(Run(events).history[i])
  {
    if events != [] {
      var init := events[..|events| - 1];
      var e := events[|events| - 1];
      WindowFromInputs(init);
      var s, w := Run(init), Run(events).history;
      forall i | 0 <= i < |w|
        ensures exists j :: 0 <= j < |events| && events[j].input == Some(w[i])
      {
        if w == s.history {
          var j :| 0 <= j < |init| && init[j].input == Some(s.history[i]);
          assert events[j] == init[j];
        } else {
          // a sample was pushed: Next neither finished nor violated, and the read was non-zero
          assert w == Push(s.history, e.input.value);
          if i == |w| - 1 {
            assert events[|events| - 1].input == Some(w[i]);
          } else {
            var k := if |s.history| < Capacity then i else i + 1;
            assert w[i] == s.history[k];
            var j :| 0 <= j < |init| && init[j].input == Some(s.history[k]);
            assert events[j] == init[j];
          }
        }
      }
    } else {
      assert Run(events) == Init();
    }
  }

  /** The published average never leaves the range of the numbers read, nor 0.0 while the window is empty. */
  lemma PublishedWithinInputRange(events: seq<Event>, lo: real, hi: real)
    requires forall j :: 0 <= j < |events| && events[j].input.Some? ==> lo <= events[j].input.value <= hi
    ensures Run(events).history == [] ==> Run(events).currentAverage == 0.0
    ensures Run(events).history != [] ==> lo <= Run(events).currentAverage <= hi
  {
    var w := Run(events).history;
    if w != [] {
      WindowFromInputs(events);
      forall i | 0 <= i < |w| ensures lo <= w[i] <= hi {
        var j :| 0 <= j < |events| && events[j].input == Some(w[i]);
      }
      MeanBounds(w, lo, hi);
    }
  }

  lemma SamplesAppend(a: seq<Event>, b: seq<Event>)
    requires forall i :: 0 <= i < |a| ==> a[i].input.Some?
    requires forall i :: 0 <= i < |b| ==> b[i].input.Some?
    ensures Samples(a + b) == Samples(a) + Samples(b)
  {
    assert forall i :: 0 <= i < |a + b| ==> (a + b)[i].input.Some?;
  }

  /**
   * A zero read at time `t` arms the cooldown; the next resume is a violation
   * when it comes fewer than 1000 ms later, and otherwise reads and processes
   * its input as usual.
   */
  lemma ZeroThenResume(events: seq<Event>, t: int, now: int, input: Option<real>)
    requires !Run(events).status.Terminal() && !TooSoon(Run(events), t)
    ensures var z := Run(events + [Event(t, Some(0.0))]);
      z.status == Suspended && z.zeroFlagActive && z.lastZeroTime == t &&
      z.currentAverage == Mean(Run(events).history) &&
      (now - t < CooldownMs ==> Next(z, now, input) == Transition(z.(status := Violated), false)) &&
      (now - t >= CooldownMs ==> Next(z, now, input) == Next(z.(zeroFlagActive := false), now, input))
  {
    assert (events + [Event(t, Some(0.0))])[..|events|] == events;
  }

  /** Resuming once more runs one more step from where the generator stood. */
  lemma RunSnoc(events: seq<Event>, e: Event)
    ensures Run(events + [e]) == Next(Run(events), e.now, e.input).next
  {
    assert (events + [e])[..|events|] == events;
  }

  /** Inputs 1, 2, 3, 4, read at any times: the published averages are 1.0, 1.5, 2.0 and 3.0. */
  lemma ScenarioOneToFour(t1: int, t2: int, t3: int, t4: int)
    ensures var e1, e2, e3, e4 := Event(t1, Some(1.0)), Event(t2, Some(2.0)), Event(t3, Some(3.0)), Event(t4, Some(4.0));
      Run([e1]).currentAverage == 1.0 && Run([e1, e2]).currentAverage == 1.5 &&
      Run([e1, e2, e3]).currentAverage == 2.0 && Run([e1, e2, e3, e4]).currentAverage == 3.0 &&
      Run([e1, e2, e3, e4]).history == [2.0, 3.0, 4.0]
  {
    ScenarioAfterOne(t1);
    ScenarioAfterTwo(t1, t2);
    ScenarioAfterThree(t1, t2, t3);
    ScenarioAfterFour(t1, t2, t3, t4);
  }

  /** The first step of ScenarioOneToFour: input 1 publishes 1.0. */
  lemma ScenarioAfterOne(t1: int)
    ensures Run([Event(t1, Some(1.0))]).currentAverage == 1.0
  {
    PublishedAfterNonZero([Event(t1, Some(1.0))], [1.0], 1.0);
  }

  /** The second step of ScenarioOneToFour: inputs 1, 2 publish 1.5. */
  lemma ScenarioAfterTwo(t1: int, t2: int)
    ensures Run([Event(t1, Some(1.0)), Event(t2, Some(2.0))]).currentAverage == 1.5
  {
    MeanOfTwo(1.0, 2.0);
    PublishedAfterNonZero([Event(t1, Some(1.0)), Event(t2, Some(2.0))], [1.0, 2.0], 1.5);
  }

  /** The third step of ScenarioOneToFour: inputs 1, 2, 3 publish 2.0. */
  lemma ScenarioAfterThree(t1: int, t2: int, t3: int)
    ensures Run([Event(t1, Some(1.0)), Event(t2, Some(2.0)), Event(t3, Some(3.0))]).currentAverage == 2.0
  {
    MeanOfThree(1.0, 2.0, 3.0);
    PublishedAfterNonZero([Event(t1, Some(1.0)), Event(t2, Some(2.0)), Event(t3, Some(3.0))], [1.0, 2.0, 3.0], 2.0);
  }

  /** The fourth step of ScenarioOneToFour: input 1 is evicted, the window is [2, 3, 4] and 3.0 is published. */
  lemma ScenarioAfterFour(t1: int, t2: int, t3: int, t4: int)
    ensures var es := [Event(t1, Some(1.0)), Event(t2, Some(2.0)), Event(t3, Some(3.0)), Event(t4, Some(4.0))];
      Run(es).history == [2.0, 3.0, 4.0] && Run(es).currentAverage == 3.0
  {
    MeanOfThree(2.0, 3.0, 4.0);
    PublishedAfterNonZero([Event(t1, Some(1.0)), Event(t2, Some(2.0)), Event(t3, Some(3.0)), Event(t4, Some(4.0))],
                          [2.0, 3.0, 4.0], 3.0);
  }

  /** Helper for the scenarios: a run of non-zero reads whose last three samples and their mean are known. */
  lemma PublishedAfterNonZero(events: seq<Event>, last: seq<real>, avg: real)
    requires AllNonZero(events)
    requires LastN(Samples(events), Capacity) == last && Mean(last) == avg
    ensures Run(events).history == last && Run(events).currentAverage == avg
  {
    NonZeroRunKeepsLastThree(events);
  }

  lemma MeanOfTwo(a: real, b: real)
    ensures Mean([a, b]) == (a + b) / 2.0
  {
    assert [a, b][..1] == [a];
    assert [a][..0] == [];
    assert Sum([a]) == a;
    assert Sum([a, b]) == a + b;
  }

  lemma MeanOfThree(a: real, b: real, c: real)
    ensures Mean([a, b, c]) == (a + b + c) / 3.0
  {
    assert [a, b, c][..2] == [a, b];
    assert [a, b][..1] == [a];
    assert [a][..0] == [];
    assert Sum([a]) == a;
    assert Sum([a, b]) == a + b;
    assert Sum([a, b, c]) == a + b + c;
  }

  /** Inputs 5 then 0, resumed 1500 ms after the zero: 5.0 is published and the generator reads on. */
  lemma ScenarioLateResume(x: real)
    ensures var z := Run([Event(0, Some(5.0)), Event(100, Some(0.0))]);
      z.currentAverage == 5.0 && z.zeroFlagActive &&
      Next(z, 1600, Some(x)).active &&
      (x != 0.0 ==> !Next(z, 1600, Some(x)).next.zeroFlagActive)
  {
    var e1, e2 := Event(0, Some(5.0)), Event(100, Some(0.0));
    RunSnoc([], e1);
    assert [] + [e1] == [e1];
    RunSnoc([e1], e2);
    assert [e1] + [e2] == [e1, e2];
  }

  /** Inputs 5 then 0, resumed 200 ms after the zero: a violation, and every later resume is refused. */
  lemma ScenarioEarlyResume(input: Option<real>, more: seq<Event>)
    ensures var es := [Event(0, Some(5.0)), Event(100, Some(0.0)), Event(300, input)];
      Run(es).status == Violated && Run(es).currentAverage == 5.0 &&
      Run(es + more) == Run(es) &&
      (forall e: Event :: !Next(Run(es + more), e.now, e.input).active)
  {
    var e1, e2, e3 := Event(0, Some(5.0)), Event(100, Some(0.0)), Event(300, input);
    RunSnoc([], e1);
    assert [] + [e1] == [e1];
    RunSnoc([e1], e2);
    assert [e1] + [e2] == [e1, e2];
    RunSnoc([e1, e2], e3);
    assert [e1, e2] + [e3] == [e1, e2, e3];
    DoneIsFinal([e1, e2, e3], more);
  }
}
