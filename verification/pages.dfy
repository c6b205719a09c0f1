/**
 * The button edge detector and the cyclic page counter of the display loop.
 *
 * The loop keeps two pieces of state: the page being shown (`oledState`) and
 * the level the button pin had on the previous iteration (`buttonStateOld`).
 * The pin is pulled up, so it reads 1 while the button is idle and 0 while it
 * is held down; the page advances on the release edge only.
 */
module Pages {

  /** A pin sample: 0 while the button is held down, 1 while it is idle. */
  type Level = b: int | b == 0 || b == 1

  /** The pages the loop has a renderer for: metrics, uptime, clock, address. */
  predicate ValidPage(p: int) {
    0 <= p < 4
  }

  /**
   * The advance chain of the loop. A page outside 0..3 only makes the loop
   * report an error and is left as it is.
   */
  function NextPage(p: int): (q: int)
    ensures ValidPage(p) ==> q == (p + 1) % 4
    ensures ValidPage(p) ==> ValidPage(q) && q != p
    ensures !ValidPage(p) ==> q == p
  {
    if p == 0 then 1
    else if p == 1 then 2
    else if p == 2 then 3
    else if p == 3 then 0
    else p
  }

  /** A release edge: the previous sample was pressed, the current one is idle. */
  predicate Released(prev: Level, cur: Level) {
    prev == 0 && cur == 1
  }

  /** The loop state between two iterations. */
  datatype State = State(page: int, prev: Level)

  /** The state before the first iteration: page 0, button idle. */
  const Initial := State(0, 1)

  /**
   * One iteration's update of the state: advance on a release edge, then
   * remember the sample as the previous level.
   */
  function Next(s: State, sample: Level): (t: State)
    ensures t.prev == sample
    ensures ValidPage(s.page) ==> ValidPage(t.page)
    ensures ValidPage(s.page) ==> (t.page != s.page <==> Released(s.prev, sample))
    ensures ValidPage(s.page) && Released(s.prev, sample) ==> t.page == (s.page + 1) % 4
    ensures !ValidPage(s.page) ==> t.page == s.page
  {
    State(if Released(s.prev, sample) then NextPage(s.page) else s.page, sample)
  }

  /** The state after a whole sequence of samples. */
  function Final(s: State, samples: seq<Level>): State
    decreases |samples|
  {
    if samples == [] then s else Final(Next(s, samples[0]), samples[1..])
  }

  /** The number of release edges in `samples`, the first one compared with `prev`. */
  function Releases(prev: Level, samples: seq<Level>): nat
    decreases |samples|
  {
    if samples == [] then 0
    else (if Released(prev, samples[0]) then 1 else 0) + Releases(samples[0], samples[1..])
  }

  /** The activation event of each iteration, in order. */
  function Activations(prev: Level, samples: seq<Level>): (a: seq<bool>)
    ensures |a| == |samples|
    ensures forall i :: 0 <= i < |samples| ==>
      a[i] == Released(if i == 0 then prev else samples[i - 1], samples[i])
    decreases |samples|
  {
    if samples == [] then []
    else [Released(prev, samples[0])] + Activations(samples[0], samples[1..])
  }

  /** The number of activation events in `a`. */
  function CountTrue(a: seq<bool>): nat
    decreases |a|
  {
    if a == [] then 0 else (if a[0] then 1 else 0) + CountTrue(a[1..])
  }

  /** The release edges counted are exactly the activation events. */
  lemma {:induction false} ReleasesAreActivations(prev: Level, samples: seq<Level>)
    ensures Releases(prev, samples) == CountTrue(Activations(prev, samples))
    decreases |samples|
  {
    if samples != [] {
      ReleasesAreActivations(samples[0], samples[1..]);
      var a := Activations(prev, samples);
      assert a[1..] == Activations(samples[0], samples[1..]);
    }
  }

  /** Four advances come back to the starting page. */
  lemma FourAdvancesIdentity(p: int)
    ensures NextPage(NextPage(NextPage(NextPage(p)))) == p
  {
  }

  lemma CycleShift(p: int, k: nat)
    requires ValidPage(p)
    ensures ((p + 1) % 4 + k) % 4 == (p + 1 + k) % 4
  {
  }

  /**
   * After any samples, the page has advanced once per release edge, modulo
   * four, and the previous level is the last sample.
   */
  lemma {:induction false} FinalCountsReleases(s: State, samples: seq<Level>)
    requires ValidPage(s.page)
    ensures ValidPage(Final(s, samples).page)
    ensures Final(s, samples).page == (s.page + Releases(s.prev, samples)) % 4
    ensures Final(s, samples).prev == if samples == [] then s.prev else samples[|samples| - 1]
    decreases |samples|
  {
    if samples != [] {
      var t := Next(s, samples[0]);
      FinalCountsReleases(t, samples[1..]);
      var k := Releases(samples[0], samples[1..]);
      assert Final(s, samples) == Final(t, samples[1..]);
      if Released(s.prev, samples[0]) {
        assert Releases(s.prev, samples) == k + 1;
        CycleShift(s.page, k);
      } else {
        assert Releases(s.prev, samples) == k;
      }
    }
  }

  /**
   * From the initial state the page never leaves 0..3, so neither the
   * 'Error!' branch of the advance nor an unmatched dispatch is reachable.
   */
  lemma {:induction false} PageAlwaysValid(samples: seq<Level>)
    ensures ValidPage(Final(Initial, samples).page)
    ensures NextPage(Final(Initial, samples).page) != Final(Initial, samples).page
  {
    FinalCountsReleases(Initial, samples);
  }

  /** A level that never rises from 0 to 1 produces no release edge. */
  lemma {:induction false} SteadyLevelNeverAdvances(prev: Level, samples: seq<Level>, v: Level)
    requires forall i :: 0 <= i < |samples| ==> samples[i] == v
    requires v == 0 || prev == 1
    ensures Releases(prev, samples) == 0
    ensures forall i :: 0 <= i < |samples| ==> !Activations(prev, samples)[i]
    decreases |samples|
  {
    if samples != [] {
      SteadyLevelNeverAdvances(samples[0], samples[1..], v);
    }
  }

  /** Holding the button and letting go advances once, on the release sample. */
  lemma PressReleaseScenario()
    ensures Activations(1, [1, 1, 0, 0, 1]) == [false, false, false, false, true]
    ensures Final(Initial, [1, 1, 0, 0, 1]) == State(1, 1)
    ensures Final(Initial, [1, 1, 0, 0, 1, 1, 1, 0, 0, 1]) == State(2, 1)
  {
  }
}
