/**
 The behaviour the filter's test suite checks, replayed on the model.

 Each fixture and each test case becomes a lemma evaluating the model on the
 test's inputs. The tests start from a wall-clock time; here that start time
 is an arbitrary `t0`, so every scenario holds whatever the clock read.
 */
module WindowFilterScenarios {
  import opened Durations
  import opened WindowFilter

  const ms: int := Millisecond
  const Window99: Duration := 99 * Millisecond

  /** `mkMinFilter`: min mode, 99 ms window, samples 10, 20, 30, 40, 50 ms
      every 25 ms from `t0`. */
  function MkMinFilter(t0: int): (f: Filter)
    ensures f.maxOrMinFilter == false && f.windowLength == Window99
    ensures f.best == Sample(20 * ms, t0 + 25 * ms)
    ensures f.second == Sample(40 * ms, t0 + 75 * ms)
    ensures f.third == Sample(50 * ms, t0 + 100 * ms)
  {
    var f1 := Update(ZeroFilter(false, Window99), 10 * ms, t0);
    assert f1.best == f1.second == f1.third == Sample(10 * ms, t0);
    var f2 := Update(f1, 20 * ms, t0 + 25 * ms);
    assert f2.best == Sample(10 * ms, t0) && f2.second == f2.third == Sample(20 * ms, t0 + 25 * ms);
    var f3 := Update(f2, 30 * ms, t0 + 50 * ms);
    assert f3 == f2;
    var f4 := Update(f3, 40 * ms, t0 + 75 * ms);
    assert f4 == f3.(third := Sample(40 * ms, t0 + 75 * ms));
    Update(f4, 50 * ms, t0 + 100 * ms)
  }

  /** `mkMaxFilter`: max mode, 99 ms window, samples 1000, 900, ..., 600
      every 25 ms from `t0`; the fixture itself checks 900/700/600. */
  function MkMaxFilter(t0: int): (f: Filter)
    ensures f.maxOrMinFilter == true && f.windowLength == Window99
    ensures f.best == Sample(900, t0 + 25 * ms)
    ensures f.second == Sample(700, t0 + 75 * ms)
    ensures f.third == Sample(600, t0 + 100 * ms)
  {
    var f1 := Update(ZeroFilter(true, Window99), 1000, t0);
    assert f1.best == f1.second == f1.third == Sample(1000, t0);
    var f2 := Update(f1, 900, t0 + 25 * ms);
    assert f2.best == Sample(1000, t0) && f2.second == f2.third == Sample(900, t0 + 25 * ms);
    var f3 := Update(f2, 800, t0 + 50 * ms);
    assert f3 == f2;
    var f4 := Update(f3, 700, t0 + 75 * ms);
    assert f4 == f3.(third := Sample(700, t0 + 75 * ms));
    Update(f4, 600, t0 + 100 * ms)
  }

  /** "MonotonicallyIncreasingMin": the windowed minimum stays 10 ms for three
      follow-up samples, rises to 20 ms at the fourth and to 40 ms after. */
  lemma MonotonicallyIncreasingMin(t0: int)
    ensures
      var f0 := Update(ZeroFilter(false, Window99), 10 * ms, t0);
      var f1 := Update(f0, 20 * ms, t0 + 25 * ms);
      var f2 := Update(f1, 30 * ms, t0 + 50 * ms);
      var f3 := Update(f2, 40 * ms, t0 + 75 * ms);
      var f4 := Update(f3, 50 * ms, t0 + 100 * ms);
      var f5 := Update(f4, 60 * ms, t0 + 125 * ms);
      var f6 := Update(f5, 70 * ms, t0 + 150 * ms);
      && GetBest(f0) == 10 * ms
      && GetBest(f1) == 10 * ms && GetBest(f2) == 10 * ms && GetBest(f3) == 10 * ms
      && GetBest(f4) == 20 * ms
      && GetBest(f5) == 40 * ms && GetBest(f6) == 40 * ms
  {
    var f4 := MkMinFilter(t0);
    var f5 := Update(f4, 60 * ms, t0 + 125 * ms);
    assert f5.best == Sample(40 * ms, t0 + 75 * ms);
    assert f5.third == Sample(60 * ms, t0 + 125 * ms);
  }

  /** "MonotonicallyDecreasingMax": the windowed maximum stays 1000 for three
      follow-up samples, drops to 900 at the fourth and to 700 after. */
  lemma MonotonicallyDecreasingMax(t0: int)
    ensures
      var f0 := Update(ZeroFilter(true, Window99), 1000, t0);
      var f1 := Update(f0, 900, t0 + 25 * ms);
      var f2 := Update(f1, 800, t0 + 50 * ms);
      var f3 := Update(f2, 700, t0 + 75 * ms);
      var f4 := Update(f3, 600, t0 + 100 * ms);
      var f5 := Update(f4, 500, t0 + 125 * ms);
      var f6 := Update(f5, 400, t0 + 150 * ms);
      && GetBest(f0) == 1000
      && GetBest(f1) == 1000 && GetBest(f2) == 1000 && GetBest(f3) == 1000
      && GetBest(f4) == 900
      && GetBest(f5) == 700 && GetBest(f6) == 700
  {
    var f4 := MkMaxFilter(t0);
    var f5 := Update(f4, 500, t0 + 125 * ms);
    assert f5.best == Sample(700, t0 + 75 * ms);
    assert f5.third == Sample(500, t0 + 125 * ms);
  }

  /** "SampleChangesThirdBestMin" and "...Max": at +101 ms a sample between
      the second- and third-best replaces only the third-best. */
  lemma SampleChangesThirdBest(t0: int)
    ensures var f := MkMinFilter(t0); var v := GetThirdBest(f) - 5 * ms;
      var r := Update(f, v, t0 + 101 * ms);
      GetThirdBest(r) == v && GetSecondBest(r) == 40 * ms && GetBest(r) == 20 * ms
    ensures var f := MkMaxFilter(t0); var v := GetThirdBest(f) + 50;
      var r := Update(f, v, t0 + 101 * ms);
      GetThirdBest(r) == v && GetSecondBest(r) == 700 && GetBest(r) == 900
  {
  }

  /** "SampleChangesSecondBestMin" and "...Max": at +101 ms a sample between
      the best and the second-best takes both lower slots. */
  lemma SampleChangesSecondBest(t0: int)
    ensures var f := MkMinFilter(t0); var v := GetSecondBest(f) - 5 * ms;
      var r := Update(f, v, t0 + 101 * ms);
      GetThirdBest(r) == v && GetSecondBest(r) == v && GetBest(r) == 20 * ms
    ensures var f := MkMaxFilter(t0); var v := GetSecondBest(f) + 50;
      var r := Update(f, v, t0 + 101 * ms);
      GetThirdBest(r) == v && GetSecondBest(r) == v && GetBest(r) == 900
  {
  }

  /** "SampleChangesAllMins" and "...Maxs": at +101 ms a sample better than
      the best takes all three slots. */
  lemma SampleChangesAll(t0: int)
    ensures var f := MkMinFilter(t0); var v := GetBest(f) - 5 * ms;
      var r := Update(f, v, t0 + 101 * ms);
      GetThirdBest(r) == v && GetSecondBest(r) == v && GetBest(r) == v
    ensures var f := MkMaxFilter(t0); var v := GetBest(f) + 50;
      var r := Update(f, v, t0 + 101 * ms);
      GetThirdBest(r) == v && GetSecondBest(r) == v && GetBest(r) == v
  {
  }

  /** "ExpireBestMin" and "...Max": at +125 ms the best has expired, so the
      old second-best becomes best and the old third-best second. */
  lemma ExpireBest(t0: int)
    ensures var f := MkMinFilter(t0); var v := GetThirdBest(f) + 5 * ms;
      var r := Update(f, v, t0 + 125 * ms);
      GetThirdBest(r) == v && GetSecondBest(r) == GetThirdBest(f) && GetBest(r) == GetSecondBest(f)
    ensures var f := MkMaxFilter(t0); var v := GetThirdBest(f) - 50;
      var r := Update(f, v, t0 + 125 * ms);
      GetThirdBest(r) == v && GetSecondBest(r) == GetThirdBest(f) && GetBest(r) == GetSecondBest(f)
  {
  }

  /** "ExpireSecondBestMin" and "...Max": at +175 ms best and second-best have
      both expired, so the old third-best becomes best and the new sample
      fills both lower slots. */
  lemma ExpireSecondBest(t0: int)
    ensures var f := MkMinFilter(t0); var v := GetThirdBest(f) + 5 * ms;
      var r := Update(f, v, t0 + 175 * ms);
      GetThirdBest(r) == v && GetSecondBest(r) == v && GetBest(r) == GetThirdBest(f)
    ensures var f := MkMaxFilter(t0); var v := GetThirdBest(f) - 50;
      var r := Update(f, v, t0 + 175 * ms);
      GetThirdBest(r) == v && GetSecondBest(r) == v && GetBest(r) == GetThirdBest(f)
  {
  }

  /** "ExpireAllMins" and "...Maxs": at +200 ms every slot has expired and any
      sample takes all three. */
  lemma ExpireAll(t0: int)
    ensures var f := MkMinFilter(t0); var v := GetThirdBest(f) + 5 * ms;
      var r := Update(f, v, t0 + 200 * ms);
      GetThirdBest(r) == v && GetSecondBest(r) == v && GetBest(r) == v
    ensures var f := MkMaxFilter(t0); var v := GetThirdBest(f) + 50;
      var r := Update(f, v, t0 + 200 * ms);
      GetThirdBest(r) == v && GetSecondBest(r) == v && GetBest(r) == v
  {
  }

  /**
   "ExpireCounterBasedMax": max mode with a 2 ms window. 50000, 40000 and
   30000 at 1, 2 and 3 ms, each followed by a thousand low samples, keep the
   best at 50000; 20000 at 4 ms expires the 1 ms record and the best becomes
   40000, which a further thousand low samples do not change.
   */
  lemma ExpireCounterBasedMax(t0: int)
    ensures
      var f1 := Update(ZeroFilter(true, 2 * Millisecond), 50000, t0 + ms);
      var g1 := UpdateWithIrrelevantSamples(f1, 20, t0 + ms);
      var f2 := Update(g1, 40000, t0 + 2 * ms);
      var g2 := UpdateWithIrrelevantSamples(f2, 20, t0 + 2 * ms);
      var f3 := Update(g2, 30000, t0 + 3 * ms);
      var g3 := UpdateWithIrrelevantSamples(f3, 20, t0 + 3 * ms);
      var f4 := Update(g3, 20000, t0 + 4 * ms);
      var g4 := UpdateWithIrrelevantSamples(f4, 20, t0 + 4 * ms);
      && GetBest(f1) == 50000 && GetBest(g1) == 50000
      && GetBest(f2) == 50000 && GetBest(g2) == 50000
      && GetBest(f3) == 50000 && GetBest(g3) == 50000
      && GetBest(f4) == 40000 && GetBest(g4) == 40000
  {
    var t1, t2, t3, t4 := t0 + ms, t0 + 2 * ms, t0 + 3 * ms, t0 + 4 * ms;
    var s1, s2 := Sample(50000, t1), Sample(40000, t2);
    var f1 := Update(ZeroFilter(true, 2 * Millisecond), 50000, t1);
    assert f1 == Filter(true, 2 * Millisecond, s1, s1, s1);
    IrrelevantSamplesUnchanged(f1, 20, t1);

    var f2 := Update(f1, 40000, t2);
    assert f2 == Filter(true, 2 * Millisecond, s1, s2, s2);
    IrrelevantSamplesUnchanged(f2, 20, t2);

    var f3 := Update(f2, 30000, t3);
    assert f3 == f2;
    IrrelevantSamplesUnchanged(f3, 20, t3);

    var f4 := Update(f3, 20000, t4);
    assert f4 == Filter(true, 2 * Millisecond, s2, s2, Sample(20000, t4));
    IrrelevantSamplesKeepBest(f4, 20, t4, 0);
  }
}
