/**
 Doing one thing after another until one of them fails, whatever the things are: entries of a
 stream, visits of a walk, layers of an image, layers of a build.
 */
module Sequencing {
  import opened FileTree

  /** The tree after the first k steps, whatever they report. */
  function After<E>(step: (FS, E) -> Ret, fs: FS, es: seq<E>, k: nat): FS
    requires k <= |es|
    decreases k
  {
    if k == 0 then fs else After(step, step(fs, es[0]).fs, es[1..], k - 1)
  }

  predicate Succeeds<E>(step: (FS, E) -> Ret, fs: FS, es: seq<E>, k: nat)
    requires k < |es|
  {
    step(After(step, fs, es, k), es[k]).errno == OK
  }

  ghost predicate FirstFailure<E>(step: (FS, E) -> Ret, fs: FS, es: seq<E>, k: nat) {
    && k < |es| && !Succeeds(step, fs, es, k)
    && forall j :: 0 <= j < k ==> Succeeds(step, fs, es, j)
  }

  ghost predicate AllSucceed<E>(step: (FS, E) -> Ret, fs: FS, es: seq<E>) {
    forall k :: 0 <= k < |es| ==> Succeeds(step, fs, es, k)
  }

  /** r is what the first failing step gives, if one fails. */
  ghost predicate FailsWith<E>(step: (FS, E) -> Ret, fs: FS, es: seq<E>, r: Ret) {
    forall k: nat :: FirstFailure(step, fs, es, k) ==> r == step(After(step, fs, es, k), es[k])
  }

  /** r is the outcome of doing all of es, stopping at the first that fails: a success exactly
      when each step succeeds on the tree the ones before have left; otherwise the error and
      the tree of the first step that fails, and nothing done after it. */
  ghost predicate StopsAtFailure<E>(step: (FS, E) -> Ret, fs: FS, es: seq<E>, r: Ret) {
    && (r.errno == OK <==> AllSucceed(step, fs, es))
    && (r.errno == OK ==> r.fs == After(step, fs, es, |es|))
    && FailsWith(step, fs, es, r)
  }

  /** One step more. */
  lemma {:induction false} AfterOneMore<E>(step: (FS, E) -> Ret, fs: FS, es: seq<E>, k: nat)
    requires k < |es|
    ensures After(step, fs, es, k + 1) == step(After(step, fs, es, k), es[k]).fs
    decreases k
  {
    if k > 0 {
      AfterOneMore(step, step(fs, es[0]).fs, es[1..], k - 1);
      assert es[1..][k-1] == es[k];
    }
  }

  lemma SucceedsLater<E>(step: (FS, E) -> Ret, fs: FS, es: seq<E>, k: nat)
    requires k + 1 < |es|
    ensures Succeeds(step, fs, es, k + 1) <==> Succeeds(step, step(fs, es[0]).fs, es[1..], k)
  {
    assert es[1..][k] == es[k+1];
  }

  lemma StopsAtOnce<E>(step: (FS, E) -> Ret, fs: FS, es: seq<E>)
    requires es != [] && step(fs, es[0]).errno != OK
    ensures StopsAtFailure(step, fs, es, step(fs, es[0]))
  {
    assert After(step, fs, es, 0) == fs && !Succeeds(step, fs, es, 0);
    forall k: nat | FirstFailure(step, fs, es, k) ensures k == 0 {
    }
  }

  lemma AllSucceedLater<E>(step: (FS, E) -> Ret, fs: FS, es: seq<E>)
    requires es != [] && step(fs, es[0]).errno == OK
    ensures AllSucceed(step, fs, es) <==> AllSucceed(step, step(fs, es[0]).fs, es[1..])
  {
    var g, rest := step(fs, es[0]).fs, es[1..];
    assert Succeeds(step, fs, es, 0);
    forall k: nat | k < |rest| ensures Succeeds(step, fs, es, k + 1) <==> Succeeds(step, g, rest, k) {
      SucceedsLater(step, fs, es, k);
    }
    if forall k :: 0 <= k < |rest| ==> Succeeds(step, g, rest, k) {
      forall k | 0 <= k < |es| ensures Succeeds(step, fs, es, k) {
        if k > 0 {
          var n: nat := k - 1;
          assert Succeeds(step, g, rest, n);
          assert Succeeds(step, fs, es, n + 1);
        }
      }
    }
  }

  lemma FailsLater<E>(step: (FS, E) -> Ret, fs: FS, es: seq<E>, k: nat)
    requires es != [] && step(fs, es[0]).errno == OK && FirstFailure(step, fs, es, k)
    ensures k > 0 && FirstFailure(step, step(fs, es[0]).fs, es[1..], k - 1)
  {
    assert Succeeds(step, fs, es, 0);
    SucceedsLater(step, fs, es, k - 1);
    forall j: nat | j < k - 1 ensures Succeeds(step, step(fs, es[0]).fs, es[1..], j) {
      SucceedsLater(step, fs, es, j);
      assert Succeeds(step, fs, es, j + 1);
    }
  }

  lemma ShiftedStep<E>(step: (FS, E) -> Ret, fs: FS, es: seq<E>, n: nat)
    requires n + 1 < |es|
    ensures step(After(step, step(fs, es[0]).fs, es[1..], n), es[1..][n]) == step(After(step, fs, es, n + 1), es[n+1])
  {
    assert es[1..][n] == es[n+1];
  }

  lemma FailsWithLater<E>(step: (FS, E) -> Ret, fs: FS, es: seq<E>, r: Ret)
    requires es != [] && step(fs, es[0]).errno == OK
    requires FailsWith(step, step(fs, es[0]).fs, es[1..], r)
    ensures FailsWith(step, fs, es, r)
  {
    forall k: nat | FirstFailure(step, fs, es, k) ensures r == step(After(step, fs, es, k), es[k]) {
      FailsLater(step, fs, es, k);
      var n: nat := k - 1;
      assert FirstFailure(step, step(fs, es[0]).fs, es[1..], n);
      ShiftedStep(step, fs, es, n);
    }
  }

  lemma StopsLater<E>(step: (FS, E) -> Ret, fs: FS, es: seq<E>, r: Ret)
    requires es != [] && step(fs, es[0]).errno == OK
    requires StopsAtFailure(step, step(fs, es[0]).fs, es[1..], r)
    ensures StopsAtFailure(step, fs, es, r)
  {
    AllSucceedLater(step, fs, es);
    FailsWithLater(step, fs, es, r);
  }
}
