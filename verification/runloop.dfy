/**
 * The display loop: every iteration samples the button, advances the page
 * on a release edge, remembers the sample, and runs the renderer of the
 * (already advanced) page. An exception from a renderer leaves the loop
 * through the handler, which releases the pins.
 *
 * `Execute` is the loop as a function of its inputs; the class `DisplayLoop`
 * holds the loop's mutable state and runs it step by step, and its methods
 * are proved to agree with `Execute`.
 */
module RunLoop {
  import opened Pages
  import opened Renderers

  /** What one iteration reads from the outside: the pin sample and the system values. */
  datatype Tick = Tick(sample: Level, readings: Readings)

  /**
   * How the run ended: the inputs ran out (the loop itself only stops on an
   * interrupt), or a renderer raised.
   */
  datatype Exit = Exhausted | Crashed(fault: Fault)

  /** The frames shown, in order, how the run ended, and the state it left. */
  datatype RunResult = RunResult(frames: seq<Frame>, exit: Exit, final: State)

  /** The pin samples of a sequence of iterations. */
  function Samples(ticks: seq<Tick>): (samples: seq<Level>)
    ensures |samples| == |ticks|
    ensures forall i :: 0 <= i < |ticks| ==> samples[i] == ticks[i].sample
  {
    seq(|ticks|, i requires 0 <= i < |ticks| => ticks[i].sample)
  }

  /** The loop from state `s` over the iterations `ticks`. */
  function Execute(s: State, ticks: seq<Tick>): (r: RunResult)
    ensures |r.frames| <= |ticks|
    ensures r.exit.Crashed? ==> |r.frames| < |ticks|
    decreases |ticks|
  {
    if ticks == [] then RunResult([], Exhausted, s)
    else
      var t := Next(s, ticks[0].sample);
      match Render(t.page, ticks[0].readings)
      case Raised(f) => RunResult([], Crashed(f), t)
      case NoRenderer => Execute(t, ticks[1..])
      case Drawn(frame) =>
        var rest := Execute(t, ticks[1..]);
        RunResult([frame] + rest.frames, rest.exit, rest.final)
  }

  /** `r` preceded by the frames already shown. */
  function After(shown: seq<Frame>, r: RunResult): RunResult {
    RunResult(shown + r.frames, r.exit, r.final)
  }

  /**
   * Starting from a page in 0..3, every iteration of a run that did not
   * crash shows exactly one frame: the one the renderer of the page reached
   * after the iteration's own sample drew from that iteration's readings.
   * The run ends in the state the samples lead to.
   */
  lemma {:induction false} EveryIterationRenders(s: State, ticks: seq<Tick>)
    requires ValidPage(s.page)
    requires Execute(s, ticks).exit.Exhausted?
    ensures |Execute(s, ticks).frames| == |ticks|
    ensures forall i :: 0 <= i < |ticks| ==>
      Render(Final(s, Samples(ticks)[..i + 1]).page, ticks[i].readings) == Drawn(Execute(s, ticks).frames[i])
    ensures Execute(s, ticks).final == Final(s, Samples(ticks))
    decreases |ticks|
  {
    if ticks != [] {
      var t := Next(s, ticks[0].sample);
      var rest := Execute(t, ticks[1..]);
      EveryIterationRenders(t, ticks[1..]);
      var samples := Samples(ticks);
      assert Samples(ticks[1..]) == samples[1..];
      forall i | 0 <= i < |ticks|
        ensures Render(Final(s, samples[..i + 1]).page, ticks[i].readings) == Drawn(Execute(s, ticks).frames[i])
      {
        assert samples[..i + 1][0] == ticks[0].sample;
        assert samples[..i + 1][1..] == samples[1..][..i];
        if i > 0 {
          assert Execute(s, ticks).frames[i] == rest.frames[i - 1];
        }
      }
    }
  }

  /**
   * A run that crashes shows, for each iteration before the crash, the
   * frame that iteration's renderer drew from its readings; the crashing
   * iteration is the next one, on the page its sample led to, and its
   * renderer raised the fault the run ended with.
   */
  lemma {:induction false} CrashIsRendererFault(s: State, ticks: seq<Tick>)
    requires ValidPage(s.page)
    requires Execute(s, ticks).exit.Crashed?
    ensures var r := Execute(s, ticks); var k := |r.frames|;
      k < |ticks| &&
      r.final == Final(s, Samples(ticks)[..k + 1]) &&
      Render(r.final.page, ticks[k].readings) == Raised(r.exit.fault)
    ensures forall i :: 0 <= i < |Execute(s, ticks).frames| ==>
      Render(Final(s, Samples(ticks)[..i + 1]).page, ticks[i].readings) == Drawn(Execute(s, ticks).frames[i])
    decreases |ticks|
  {
    var t := Next(s, ticks[0].sample);
    var samples := Samples(ticks);
    assert samples[..1] == [ticks[0].sample];
    assert Final(s, samples[..1]) == t;
    if Render(t.page, ticks[0].readings).Drawn? {
      var rest := Execute(t, ticks[1..]);
      CrashIsRendererFault(t, ticks[1..]);
      var k := |rest.frames|;
      assert Samples(ticks[1..]) == samples[1..];
      assert samples[..k + 2][1..] == samples[1..][..k + 1];
      forall i | 0 <= i < k + 1
        ensures Render(Final(s, samples[..i + 1]).page, ticks[i].readings) == Drawn(Execute(s, ticks).frames[i])
      {
        assert samples[..i + 1][0] == ticks[0].sample;
        assert samples[..i + 1][1..] == samples[1..][..i];
        if i > 0 {
          assert Execute(s, ticks).frames[i] == rest.frames[i - 1];
        }
      }
    }
  }

  /** Nothing after the crashing iteration is processed. */
  lemma {:induction false} CrashIgnoresRest(s: State, ticks: seq<Tick>, more: seq<Tick>)
    requires Execute(s, ticks).exit.Crashed?
    ensures Execute(s, ticks + more) == Execute(s, ticks)
    decreases |ticks|
  {
    var t := Next(s, ticks[0].sample);
    assert (ticks + more)[0] == ticks[0];
    assert (ticks + more)[1..] == ticks[1..] + more;
    if !Render(t.page, ticks[0].readings).Raised? {
      CrashIgnoresRest(t, ticks[1..], more);
    }
  }

  /** Readings where every lookup succeeds. */
  const AllPresent := Readings(map["cpu_thermal" := [48.3]], 93725.0, "04-27-2025", "09:15:02 PM", Some("192.168.1.20"))

  /** The same readings when the address lookup fails. */
  const NoAddress := AllPresent.(address := None)

  /**
   * Three press-and-release cycles from the start bring the loop to the
   * address page; without an address it crashes there, after five frames,
   * and whatever comes after is never processed.
   */
  lemma MissingAddressEndsRun(more: seq<Tick>)
    ensures var ticks := [Tick(0, NoAddress), Tick(1, NoAddress), Tick(0, NoAddress),
                          Tick(1, NoAddress), Tick(0, NoAddress), Tick(1, NoAddress)];
      var r := Execute(Initial, ticks + more);
      |r.frames| == 5 && r.exit == Crashed(AddressMissing) && r.final == State(3, 1)
  {
    var ticks := [Tick(0, NoAddress), Tick(1, NoAddress), Tick(0, NoAddress),
                  Tick(1, NoAddress), Tick(0, NoAddress), Tick(1, NoAddress)];
    assert Execute(State(2, 0), ticks[5..]) == RunResult([], Crashed(AddressMissing), State(3, 1));
    assert |Execute(State(2, 1), ticks[4..]).frames| == 1;
    assert |Execute(State(1, 0), ticks[3..]).frames| == 2;
    assert |Execute(State(1, 1), ticks[2..]).frames| == 3;
    assert |Execute(State(0, 0), ticks[1..]).frames| == 4;
    assert |Execute(Initial, ticks).frames| == 5;
    CrashIgnoresRest(Initial, ticks, more);
  }

  /** The loop's state and its steps. */
  class DisplayLoop {
    /** The page being shown. */
    var page: int
    /** The pin sample of the previous iteration. */
    var prevLevel: Level

    /** The state as a value. */
    function Current(): State
      reads this
    {
      State(page, prevLevel)
    }

    /** The start-up state: page 0, button idle. */
    constructor ()
      ensures Current() == Initial
    {
      page := 0;
      prevLevel := 1;
    }

    /**
     * One iteration with the pin sample `sample` and the system values
     * `readings`: returns what the renderer of the new page did.
     */
    method Step(sample: Level, readings: Readings) returns (outcome: Outcome)
      modifies this
      ensures Current() == Next(old(Current()), sample)
      ensures outcome == Render(page, readings)
    {
      if prevLevel == 0 && sample == 1 {
        if page == 0 {
          page := 1;
        } else if page == 1 {
          page := 2;
        } else if page == 2 {
          page := 3;
        } else if page == 3 {
          page := 0;
        }
        // any other page is reported as an error and left as it is
      }
      prevLevel := sample;
      if page == 0 {
        outcome := RenderMetrics(readings);
      } else if page == 1 {
        outcome := RenderUptime(readings);
      } else if page == 2 {
        outcome := RenderClock(readings);
      } else if page == 3 {
        outcome := RenderAddress(readings);
      } else {
        outcome := NoRenderer;
      }
    }

    /**
     * Runs the loop over `ticks` until they run out or a renderer raises;
     * on a raise the pins are released (`cleanedUp`) and the loop ends.
     */
    method Run(ticks: seq<Tick>) returns (frames: seq<Frame>, exit: Exit, cleanedUp: bool)
      modifies this
      ensures RunResult(frames, exit, Current()) == Execute(old(Current()), ticks)
      ensures cleanedUp <==> exit.Crashed?
    {
      frames, exit, cleanedUp := [], Exhausted, false;
      var i := 0;
      while i < |ticks|
        invariant 0 <= i <= |ticks|
        invariant Execute(old(Current()), ticks) == After(frames, Execute(Current(), ticks[i..]))
        decreases |ticks| - i
      {
        assert ticks[i..][0] == ticks[i] && ticks[i..][1..] == ticks[i + 1..];
        var outcome := Step(ticks[i].sample, ticks[i].readings);
        match outcome {
          case Raised(f) =>
            exit, cleanedUp := Crashed(f), true;
            return;
          case NoRenderer =>
          case Drawn(frame) =>
            frames := frames + [frame];
        }
        i := i + 1;
      }
    }
  }
}
