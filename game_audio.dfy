/**
 * The countdown-track chooser of the game audio hook: each time limit has
 * its own list of countdown recordings, and a per-limit counter makes
 * successive questions with the same limit cycle through that list. The
 * counters live in a map that every call updates in place; playing the
 * audio itself is not part of this model.
 */
module GameAudio {

  /** The countdown recordings for each time limit, in the order they are used. */
  const CountdownFiles: map<int, seq<string>> := map[
    10 := ["/audio/A - 10 Second Count Down.mp3",
           "/audio/B - 10 Second Count Down.mp3"],
    20 := ["/audio/A - 20 Second Countdown.mp3",
           "/audio/B - 20 Second Countdown.mp3",
           "/audio/C - 20 Second Countdown.mp3"],
    30 := ["/audio/A - 30 Second Countdown.mp3",
           "/audio/B - 30 Second Countdown.mp3",
           "/audio/C - 30 Second Countdown.mp3"],
    60 := ["/audio/A - 60 Second Count Down.mp3",
           "/audio/B - 60 Second Count Down.mp3"]]

  /** The recording used for a time limit without a list of its own: the first 30-second one. */
  const DefaultFile: string := "/audio/A - 30 Second Countdown.mp3"

  /** Every counter starts at the first recording. */
  const InitialCounters: map<int, int> := map[10 := 0, 20 := 0, 30 := 0, 60 := 0]

  /** A time limit with a non-empty list of recordings in `table`. */
  predicate Known(table: map<int, seq<string>>, timeLimit: int)
  {
    timeLimit in table && |table[timeLimit]| > 0
  }

  /** There is one counter per listed time limit, and each indexes its list. */
  predicate CountersValid(table: map<int, seq<string>>, c: map<int, int>)
  {
    && c.Keys == table.Keys
    && forall t :: t in c ==> 0 <= c[t] < |table[t]|
  }

  lemma InitialCountersValid()
    ensures CountersValid(CountdownFiles, InitialCounters)
    ensures DefaultFile == CountdownFiles[30][0]
  {
  }

  /**
   * One call of `getNextCountdownAudio` with the recordings `table` and the
   * counters `c`: the recording it returns and the counters it leaves. An
   * unknown limit gets the default recording and changes nothing; a known
   * limit gets the recording its counter points at, and only that counter
   * moves on by one, wrapping round at the end of the list.
   */
  function Pick(table: map<int, seq<string>>, c: map<int, int>, timeLimit: int): (r: (string, map<int, int>))
    requires CountersValid(table, c)
    ensures CountersValid(table, r.1)
    ensures !Known(table, timeLimit) ==> r == (DefaultFile, c)
    ensures Known(table, timeLimit) ==> r.0 == table[timeLimit][c[timeLimit]]
    ensures Known(table, timeLimit) ==> r.1.Keys == c.Keys && r.1[timeLimit] == (c[timeLimit] + 1) % |table[timeLimit]|
    ensures forall t :: t in c && t != timeLimit ==> r.1[t] == c[t]
  {
    if !Known(table, timeLimit) then (DefaultFile, c)
    else
      var files := table[timeLimit];
      var index := c[timeLimit];
      (files[index], c[timeLimit := (index + 1) % |files|])
  }

  /** `k` calls in a row with the same time limit: the recordings returned, in order, and the counters left. */
  function PickRun(table: map<int, seq<string>>, c: map<int, int>, timeLimit: int, k: nat): (r: (seq<string>, map<int, int>))
    requires CountersValid(table, c)
    ensures CountersValid(table, r.1) && |r.0| == k
    decreases k
  {
    if k == 0 then ([], c)
    else
      var first := Pick(table, c, timeLimit);
      var rest := PickRun(table, first.1, timeLimit, k - 1);
      ([first.0] + rest.0, rest.1)
  }

  /** Moving a counter on by one wraps to 0 past the last recording. */
  lemma NextIndex(a: int, n: int)
    requires 0 <= a < n
    ensures (a + 1) % n == if a + 1 == n then 0 else a + 1
  {
  }

  /** A counter moved on `k` times, one wrapping step at a time. */
  function Advance(a: int, k: nat, n: int): (r: int)
    requires 0 <= a < n
    ensures 0 <= r < n
    decreases k
  {
    if k == 0 then a else Advance(if a + 1 == n then 0 else a + 1, k - 1, n)
  }

  /** Within one round, moving on `i` steps wraps at most once. */
  lemma {:induction false} AdvanceWithinRound(a: int, i: nat, n: int)
    requires 0 <= a < n && i <= n
    ensures Advance(a, i, n) == if a + i < n then a + i else a + i - n
    decreases i
  {
    if i > 0 {
      if a + 1 == n {
        AdvanceZero(i - 1, n);
      } else {
        AdvanceWithinRound(a + 1, i - 1, n);
      }
    }
  }

  lemma {:induction false} AdvanceZero(i: nat, n: int)
    requires i < n
    ensures Advance(0, i, n) == i
    decreases i
  {
    if i > 0 {
      AdvanceShift(0, i - 1, n);
      AdvanceZero(i - 1, n);
    }
  }

  /** Advancing `i + 1` steps is advancing `i` steps and then one more. */
  lemma {:induction false} AdvanceShift(a: int, i: nat, n: int)
    requires 0 <= a < n
    ensures Advance(a, i + 1, n) == var b := Advance(a, i, n); if b + 1 == n then 0 else b + 1
    decreases i
  {
    if i > 0 {
      AdvanceShift(if a + 1 == n then 0 else a + 1, i - 1, n);
    }
  }

  /**
   * `k` calls with a known limit return the recordings from the counter's
   * position onwards, round the list, and leave that counter `k` steps on.
   */
  lemma {:induction false} PickRunRotates(table: map<int, seq<string>>, c: map<int, int>, timeLimit: int, k: nat)
    requires CountersValid(table, c) && Known(table, timeLimit)
    ensures var files := table[timeLimit];
            var r := PickRun(table, c, timeLimit, k);
            && (forall i :: 0 <= i < k ==> r.0[i] == files[Advance(c[timeLimit], i, |files|)])
            && r.1 == c[timeLimit := Advance(c[timeLimit], k, |files|)]
    decreases k
  {
    var files := table[timeLimit];
    var n := |files|;
    var a := c[timeLimit];
    if k == 0 {
      assert c[timeLimit := a] == c;
    } else {
      var first := Pick(table, c, timeLimit);
      NextIndex(a, n);
      PickRunRotates(table, first.1, timeLimit, k - 1);
      var r := PickRun(table, c, timeLimit, k);
      var rest := PickRun(table, first.1, timeLimit, k - 1);
      assert first.1 == c[timeLimit := if a + 1 == n then 0 else a + 1];
      forall i | 0 <= i < k ensures r.0[i] == files[Advance(a, i, n)] {
        if i > 0 {
          assert r.0[i] == rest.0[i - 1];
        }
      }
    }
  }

  /**
   * A full round of calls with one known limit returns every one of its
   * recordings, each as often as it is listed, and leaves every counter
   * where it was.
   */
  lemma FullCycle(table: map<int, seq<string>>, c: map<int, int>, timeLimit: int)
    requires CountersValid(table, c) && Known(table, timeLimit)
    ensures var files := table[timeLimit];
            var r := PickRun(table, c, timeLimit, |files|);
            multiset(r.0) == multiset(files) && r.1 == c
  {
    var files := table[timeLimit];
    var n := |files|;
    var a := c[timeLimit];
    var r := PickRun(table, c, timeLimit, n);
    PickRunRotates(table, c, timeLimit, n);
    AdvanceWithinRound(a, n, n);
    assert c[timeLimit := a] == c;
    forall i | 0 <= i < n ensures r.0[i] == (files[a..] + files[..a])[i] {
      AdvanceWithinRound(a, i, n);
    }
    assert r.0 == files[a..] + files[..a];
    assert files == files[..a] + files[a..];
  }

  /** The hook's counter map. */
  class CountdownChooser {
    var audioIndex: map<int, int>

    constructor ()
      ensures audioIndex == InitialCounters && CountersValid(CountdownFiles, audioIndex)
    {
      audioIndex := InitialCounters;
    }

    /** `getNextCountdownAudio`: the recording for the limit, moving that limit's counter on. */
    method GetNextCountdownAudio(timeLimit: int) returns (file: string)
      requires CountersValid(CountdownFiles, audioIndex)
      modifies this
      ensures CountersValid(CountdownFiles, audioIndex)
      ensures (file, audioIndex) == Pick(CountdownFiles, old(audioIndex), timeLimit)
    {
      if !(timeLimit in CountdownFiles) || |CountdownFiles[timeLimit]| == 0 {
        return DefaultFile;
      }
      var files := CountdownFiles[timeLimit];
      var currentIndex := audioIndex[timeLimit];
      file := files[currentIndex];
      audioIndex := audioIndex[timeLimit := (currentIndex + 1) % |files|];
    }
  }
}
