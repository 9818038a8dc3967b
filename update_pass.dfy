/** One `update()` pass of the plugin: walk the candidates in order, fire
    "appear" for each one inside the visible area, count consecutive misses
    below or right of the fold, and stop once that count exceeds
    `failure_limit`. */
module UpdatePass {

  import opened Geometry

  /** A candidate as the host reports it when the pass reaches it: its
      geometry, and whether jQuery's `:visible` holds for it. */
  datatype Candidate = Candidate(box: Box, visible: bool)

  /** The settings the pass reads. */
  datatype PassSettings = PassSettings(threshold: Threshold, failureLimit: int,
                                       container: ContainerOption, skipInvisible: bool)

  /** The settings object the pass hands to the predicates. */
  function QueryOf(s: PassSettings): Query {
    Query(s.threshold, s.container)
  }

  /** What the pass does with one candidate: skip it (invisible and
      `skip_invisible`, or above the top, or left of the beginning), fire
      "appear", count a miss, or throw from a predicate. */
  datatype Verdict = Skip | Appear | Miss | Throw

  /** The verdict on one candidate, in the order the source tests it:
      `abovethetop || leftofbegin` first (short-circuit), then
      `!belowthefold && !rightoffold`. */
  function Classify(c: Candidate, s: PassSettings, win: Viewport): Verdict {
    if s.skipInvisible && !c.visible then Skip
    else
      match AboveTheTop(c.box, QueryOf(s), win)
      case TypeError => Throw
      case Ok(above) =>
        if above then Skip
        else
          match LeftOfBegin(c.box, QueryOf(s), win)
          case TypeError => Throw
          case Ok(left) =>
            if left then Skip
            else if !BelowTheFold(c.box, QueryOf(s), win) && !RightOfFold(c.box, QueryOf(s), win) then Appear
            else Miss
  }

  /** The miss counter when the pass reaches index `i`: reset by every
      "appear", raised by every miss, kept by every skip. */
  function CounterAt(cs: seq<Candidate>, s: PassSettings, win: Viewport, i: nat): nat
    requires i <= |cs|
  {
    if i == 0 then 0
    else
      match Classify(cs[i - 1], s, win)
      case Appear => 0
      case Miss => CounterAt(cs, s, win, i - 1) + 1
      case _ => CounterAt(cs, s, win, i - 1)
  }

  /** The pass ends at candidate `i`: a predicate throws there, or it is a miss
      that takes the counter past `failure_limit` (`++counter > failure_limit`). */
  predicate StopsAt(cs: seq<Candidate>, s: PassSettings, win: Viewport, i: nat)
    requires i < |cs|
  {
    var v := Classify(cs[i], s, win);
    v == Throw || (v == Miss && CounterAt(cs, s, win, i) + 1 > s.failureLimit)
  }

  /** What a pass produces: `stop` is the first index where it stops (or the
      number of candidates when it runs to the end), `threw` says whether it
      stopped by an exception, and `appeared` lists, in increasing order,
      exactly the indices before `stop` whose verdict is "appear". */
  ghost predicate IsPassResult(cs: seq<Candidate>, s: PassSettings, win: Viewport,
                               appeared: seq<nat>, stop: nat, threw: bool)
  {
    && stop <= |cs|
    && (forall j :: 0 <= j < stop ==> !StopsAt(cs, s, win, j))
    && (stop < |cs| ==> StopsAt(cs, s, win, stop))
    && (threw <==> stop < |cs| && Classify(cs[stop], s, win) == Throw)
    && (forall k :: 0 <= k < |appeared| ==> appeared[k] < stop && Classify(cs[appeared[k]], s, win) == Appear)
    && (forall k, l :: 0 <= k < l < |appeared| ==> appeared[k] < appeared[l])
    && (forall j :: 0 <= j < stop && Classify(cs[j], s, win) == Appear ==> j in appeared)
  }

  /** `update()`: one pass over the candidates. */
  method Update(cs: seq<Candidate>, s: PassSettings, win: Viewport)
    returns (appeared: seq<nat>, stop: nat, threw: bool)
    ensures IsPassResult(cs, s, win, appeared, stop, threw)
  {
    var q := QueryOf(s);
    var counter := 0;
    appeared, threw := [], false;
    var i := 0;
    while i < |cs|
      invariant i <= |cs|
      invariant counter == CounterAt(cs, s, win, i)
      invariant forall j :: 0 <= j < i ==> !StopsAt(cs, s, win, j)
      invariant forall k :: 0 <= k < |appeared| ==> appeared[k] < i && Classify(cs[appeared[k]], s, win) == Appear
      invariant forall k, l :: 0 <= k < l < |appeared| ==> appeared[k] < appeared[l]
      invariant forall j :: 0 <= j < i && Classify(cs[j], s, win) == Appear ==> j in appeared
    {
      var c := cs[i];
      ghost var v := Classify(c, s, win);
      if s.skipInvisible && !c.visible {
        // `return;` inside `each`: on to the next candidate
        assert v == Skip;
      } else {
        var skip: bool;
        match AboveTheTop(c.box, q, win) {
          case TypeError =>
            assert v == Throw && StopsAt(cs, s, win, i);
            stop, threw := i, true;
            break;
          case Ok(above) =>
            if above {
              skip := true;
            } else {
              match LeftOfBegin(c.box, q, win) {
                case TypeError =>
                  assert v == Throw && StopsAt(cs, s, win, i);
                  stop, threw := i, true;
                  break;
                case Ok(left) =>
                  skip := left;
              }
            }
        }
        if skip {
          assert v == Skip;
        } else if !BelowTheFold(c.box, q, win) && !RightOfFold(c.box, q, win) {
          assert v == Appear;
          appeared := appeared + [i];
          counter := 0;
        } else {
          assert v == Miss;
          counter := counter + 1;
          if counter > s.failureLimit {
            assert StopsAt(cs, s, win, i);
            stop := i;
            break;
          }
        }
      }
      assert !StopsAt(cs, s, win, i);
      i := i + 1;
    }
    if i == |cs| {
      stop := i;
    }
  }

  // ---------------------------------------------------------------------------
  // Properties of the pass.
  // ---------------------------------------------------------------------------

  /** The number of candidates in `cs[lo..hi]` whose verdict is a miss. */
  function MissCount(cs: seq<Candidate>, s: PassSettings, win: Viewport, lo: nat, hi: nat): nat
    requires lo <= hi <= |cs|
    decreases hi - lo
  {
    if lo == hi then 0
    else (if Classify(cs[lo], s, win) == Miss then 1 else 0) + MissCount(cs, s, win, lo + 1, hi)
  }

  /** The counter is the number of misses since the last "appear" (or since
      the start): for any `lo` that is the start or just after an "appear",
      with no "appear" from `lo` up to `i`. */
  lemma {:induction false} CounterIsMissRun(cs: seq<Candidate>, s: PassSettings, win: Viewport, lo: nat, i: nat)
    requires lo <= i <= |cs|
    requires lo == 0 || Classify(cs[lo - 1], s, win) == Appear
    requires forall j :: lo <= j < i ==> Classify(cs[j], s, win) != Appear
    ensures CounterAt(cs, s, win, i) == MissCount(cs, s, win, lo, i)
  {
    if i == lo {
    } else {
      CounterIsMissRun(cs, s, win, lo, i - 1);
      MissCountSplit(cs, s, win, lo, i - 1);
    }
  }

  /** Counting up to `hi + 1` adds the candidate at `hi`. */
  lemma {:induction false} MissCountSplit(cs: seq<Candidate>, s: PassSettings, win: Viewport, lo: nat, hi: nat)
    requires lo <= hi < |cs|
    ensures MissCount(cs, s, win, lo, hi + 1)
         == MissCount(cs, s, win, lo, hi) + (if Classify(cs[hi], s, win) == Miss then 1 else 0)
    decreases hi - lo
  {
    if lo < hi {
      MissCountSplit(cs, s, win, lo + 1, hi);
    }
  }

  /** The counter never exceeds the number of candidates already passed. */
  lemma {:induction false} CounterBound(cs: seq<Candidate>, s: PassSettings, win: Viewport, i: nat)
    requires i <= |cs|
    ensures CounterAt(cs, s, win, i) <= i
  {
    if i > 0 {
      CounterBound(cs, s, win, i - 1);
    }
  }

  /** A pass whose `failure_limit` is at least the number of candidates, and in
      which nothing throws, never stops early. */
  lemma LargeLimitRunsToTheEnd(cs: seq<Candidate>, s: PassSettings, win: Viewport,
                               appeared: seq<nat>, stop: nat, threw: bool)
    requires IsPassResult(cs, s, win, appeared, stop, threw)
    requires s.failureLimit >= |cs|
    requires forall j :: 0 <= j < |cs| ==> Classify(cs[j], s, win) != Throw
    ensures stop == |cs| && !threw
  {
    if stop < |cs| {
      CounterBound(cs, s, win, stop);
    }
  }

  /** With `failure_limit` 0 the pass stops at the first miss: no candidate
      before `stop` is a miss, and the candidate at `stop` is a miss or threw. */
  lemma ZeroLimitStopsAtFirstMiss(cs: seq<Candidate>, s: PassSettings, win: Viewport,
                                  appeared: seq<nat>, stop: nat, threw: bool)
    requires IsPassResult(cs, s, win, appeared, stop, threw)
    requires s.failureLimit == 0
    ensures forall j :: 0 <= j < stop ==> Classify(cs[j], s, win) != Miss
    ensures stop < |cs| ==> Classify(cs[stop], s, win) in {Miss, Throw}
  {
    forall j | 0 <= j < stop
      ensures Classify(cs[j], s, win) != Miss
    {
      assert !StopsAt(cs, s, win, j);
    }
  }

  /** A pass that stops on a miss has seen more than `failure_limit` misses in a
      row (skips aside) since the last "appear". */
  lemma StopMeansTooManyMisses(cs: seq<Candidate>, s: PassSettings, win: Viewport,
                               appeared: seq<nat>, stop: nat, threw: bool, lo: nat)
    requires IsPassResult(cs, s, win, appeared, stop, threw)
    requires stop < |cs| && !threw
    requires lo <= stop && (lo == 0 || Classify(cs[lo - 1], s, win) == Appear)
    requires forall j :: lo <= j < stop ==> Classify(cs[j], s, win) != Appear
    ensures MissCount(cs, s, win, lo, stop + 1) > s.failureLimit
  {
    CounterIsMissRun(cs, s, win, lo, stop);
    MissCountSplit(cs, s, win, lo, stop);
  }

  /** Nothing at or after the stop point fires "appear", and every candidate
      before it that is neither above, left, below nor right does. */
  lemma AppearsExactlyBeforeStop(cs: seq<Candidate>, s: PassSettings, win: Viewport,
                                 appeared: seq<nat>, stop: nat, threw: bool, j: nat)
    requires IsPassResult(cs, s, win, appeared, stop, threw)
    requires j < |cs|
    ensures j in appeared <==> j < stop && Classify(cs[j], s, win) == Appear
  {
  }
}
