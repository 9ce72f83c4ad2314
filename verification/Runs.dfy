/** Cutting a sequence into maximal runs of equal keys. */
module Runs {

  /** The maximal runs of equal `key` in `s`, in order. */
  function Cut<T>(key: T -> int, s: seq<T>): seq<seq<T>> {
    if s == [] then []
    else Extend(key, Cut(key, s[..|s| - 1]), s[|s| - 1])
  }

  /** Runs after one more element: the last run grows if the key is the same. */
  function Extend<T>(key: T -> int, runs: seq<seq<T>>, x: T): seq<seq<T>> {
    var n := |runs|;
    if n > 0 && runs[n - 1] != [] && key(runs[n - 1][|runs[n - 1]| - 1]) == key(x)
    then runs[n - 1 := runs[n - 1] + [x]]
    else runs + [[x]]
  }

  function Flatten<T>(runs: seq<seq<T>>): seq<T> {
    if runs == [] then [] else Flatten(runs[..|runs| - 1]) + runs[|runs| - 1]
  }

  ghost predicate Constant<T>(key: T -> int, run: seq<T>) {
    run != [] && forall i :: 0 <= i < |run| ==> key(run[i]) == key(run[0])
  }

  /** `runs` cuts `s` into non-empty runs of one key each, no two neighbours alike. */
  ghost predicate MaximalRuns<T>(key: T -> int, s: seq<T>, runs: seq<seq<T>>) {
    && Flatten(runs) == s
    && (forall i :: 0 <= i < |runs| ==> Constant(key, runs[i]))
    && (forall i :: 0 <= i && i + 1 < |runs| ==> key(runs[i][0]) != key(runs[i + 1][0]))
  }

  lemma {:induction false} CutIsMaximal<T>(key: T -> int, s: seq<T>)
    ensures MaximalRuns(key, s, Cut(key, s))
  {
    if s != [] {
      var n := |s| - 1;
      CutIsMaximal(key, s[..n]);
      ExtendIsMaximal(key, s[..n], Cut(key, s[..n]), s[n]);
      assert s[..n] + [s[n]] == s;
    }
  }

  lemma ExtendIsMaximal<T>(key: T -> int, s: seq<T>, runs: seq<seq<T>>, x: T)
    requires MaximalRuns(key, s, runs)
    ensures MaximalRuns(key, s + [x], Extend(key, runs, x))
  {
    var out, n := Extend(key, runs, x), |runs|;
    if n > 0 && key(runs[n - 1][|runs[n - 1]| - 1]) == key(x) {
      assert out[..n - 1] == runs[..n - 1];
      assert Flatten(out) == Flatten(runs[..n - 1]) + (runs[n - 1] + [x]);
      assert s + [x] == Flatten(runs[..n - 1]) + (runs[n - 1] + [x]);
      assert Constant(key, out[n - 1]);
    } else {
      assert out[..n] == runs;
      assert Constant(key, out[n]);
    }
  }

  /** There is only one way to cut a sequence into maximal runs. */
  lemma {:induction false} MaximalRunsAreCut<T>(key: T -> int, s: seq<T>, runs: seq<seq<T>>)
    requires MaximalRuns(key, s, runs)
    ensures runs == Cut(key, s)
    decreases |s|
  {
    if runs != [] {
      var n := |runs| - 1;
      var run := runs[n];
      var m := |run| - 1;
      assert Constant(key, run);
      var x := run[m];
      assert s[..|s| - 1] == Flatten(runs[..n]) + run[..m] && s[|s| - 1] == x;
      if m == 0 {
        assert MaximalRuns(key, s[..|s| - 1], runs[..n]);
        MaximalRunsAreCut(key, s[..|s| - 1], runs[..n]);
        assert [x] == run && runs == runs[..n] + [run];
        if n > 0 { assert Constant(key, runs[n - 1]); assert key(runs[n - 1][0]) != key(runs[n - 1 + 1][0]); }
      } else {
        var shorter := runs[n := run[..m]];
        assert shorter[..n] == runs[..n];
        assert Constant(key, shorter[n]);
        MaximalRunsAreCut(key, s[..|s| - 1], shorter);
        assert run[..m] + [x] == run;
        assert runs == shorter[n := run];
      }
    }
  }
}
