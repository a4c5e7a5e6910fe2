/**
 * Folding a byte string into a register, for any register type and any step.
 * Both checksums are instances; what holds for every step is proved once, here.
 */
module Fold {
  import opened Bytes

  function Iterate<S>(f: S -> S, c: S, n: nat): S
    decreases n, c
  {
    if n == 0 then c else f(Iterate(f, c, n - 1))
  }

  /** The register after the message `s`, starting from `c`. */
  function Run<S>(step: (S, byte) -> S, c: S, s: seq<byte>): S
    decreases |s|
  {
    if s == [] then c else step(Run(step, c, s[..|s| - 1]), s[|s| - 1])
  }

  function Flatten<T>(chunks: seq<seq<T>>): seq<T>
    decreases |chunks|
  {
    if chunks == [] then [] else Flatten(chunks[..|chunks| - 1]) + chunks[|chunks| - 1]
  }

  ghost predicate Injective<S(!new)>(f: S -> S) {
    forall a, b :: f(a) == f(b) ==> a == b
  }

  ghost predicate Additive<S(!new)>(f: S -> S, plus: (S, S) -> S) {
    forall a, b :: f(plus(a, b)) == plus(f(a), f(b))
  }

  /** Distinct registers stay distinct under equal input. */
  ghost predicate KeepsApart<S(!new)>(step: (S, byte) -> S) {
    forall a, b, x :: step(a, x) == step(b, x) ==> a == b
  }

  /** From any register, two strings of `w` bytes that lead to the same register are equal. */
  ghost predicate SeparatesWindows<S(!new)>(step: (S, byte) -> S, w: nat) {
    forall c, u, v | |u| == w && |v| == w :: Run(step, c, u) == Run(step, c, v) ==> u == v
  }

  lemma {:induction false} IterateInjective<S(!new)>(f: S -> S, a: S, b: S, n: nat)
    requires Injective(f)
    requires Iterate(f, a, n) == Iterate(f, b, n)
    ensures a == b
    decreases n
  {
    if n != 0 {
      IterateInjective(f, a, b, n - 1);
    }
  }

  lemma {:induction false} IterateAdditive<S(!new)>(f: S -> S, plus: (S, S) -> S, a: S, b: S, n: nat)
    requires Additive(f, plus)
    ensures Iterate(f, plus(a, b), n) == plus(Iterate(f, a, n), Iterate(f, b, n))
    decreases n
  {
    if n != 0 {
      IterateAdditive(f, plus, a, b, n - 1);
    }
  }

  lemma {:induction false} IterateSum<S>(f: S -> S, c: S, m: nat, n: nat)
    ensures Iterate(f, Iterate(f, c, m), n) == Iterate(f, c, m + n)
    decreases n
  {
    if n != 0 {
      IterateSum(f, c, m, n - 1);
    }
  }

  lemma Iterate8<S>(f: S -> S, c: S)
    ensures Iterate(f, c, 8) == f(f(f(f(f(f(f(f(c))))))))
  {
    assert Iterate(f, c, 0 + 1) == f(c);
    assert Iterate(f, c, 2) == f(f(c));
    assert Iterate(f, c, 3) == f(f(f(c)));
    assert Iterate(f, c, 5) == f(f(f(f(f(c)))));
    assert Iterate(f, c, 7) == f(f(f(f(f(f(f(c)))))));
  }

  lemma {:induction false} RunConcat<S>(step: (S, byte) -> S, c: S, a: seq<byte>, b: seq<byte>)
    ensures Run(step, c, a + b) == Run(step, Run(step, c, a), b)
    decreases |b|
  {
    if b == [] {
      assert a + b == a;
    } else {
      var m := b[..|b| - 1];
      assert (a + b)[..|a + b| - 1] == a + m;
      RunConcat(step, c, a, m);
    }
  }

  lemma {:induction false} RunKeepsApart<S(!new)>(step: (S, byte) -> S, a: S, b: S, s: seq<byte>)
    requires KeepsApart(step)
    requires Run(step, a, s) == Run(step, b, s)
    ensures a == b
    decreases |s|
  {
    if s != [] {
      var m, x := s[..|s| - 1], s[|s| - 1];
      assert step(Run(step, a, m), x) == step(Run(step, b, m), x);
      RunKeepsApart(step, a, b, m);
    }
  }

  lemma ShortWindow<S(!new)>(step: (S, byte) -> S, w: nat, c: S, u: seq<byte>, v: seq<byte>)
    requires SeparatesWindows(step, w)
    requires |u| == |v| <= w
    requires Run(step, c, u) == Run(step, c, v)
    ensures u == v
  {
    if u != [] {
      var pad := seq(w - |u|, _ => u[0]);
      RunConcat(step, c, u, pad);
      RunConcat(step, c, v, pad);
      assert u + pad == v + pad;
      assert u == (u + pad)[..|u|] && v == (v + pad)[..|v|];
    }
  }

  /**
   * Burst detection. Two messages of the same length that agree outside a window of at
   * most `w` bytes and reach the same register are the same message.
   */
  lemma BurstDetected<S(!new)>(step: (S, byte) -> S, w: nat, c: S,
                               p: seq<byte>, u: seq<byte>, v: seq<byte>, q: seq<byte>)
    requires KeepsApart(step) && SeparatesWindows(step, w)
    requires |u| == |v| <= w
    requires Run(step, c, p + u + q) == Run(step, c, p + v + q)
    ensures u == v
  {
    RunConcat(step, c, p + u, q);
    RunConcat(step, c, p + v, q);
    RunKeepsApart(step, Run(step, c, p + u), Run(step, c, p + v), q);
    RunConcat(step, c, p, u);
    RunConcat(step, c, p, v);
    ShortWindow(step, w, Run(step, c, p), u, v);
  }

  lemma Run4<S>(step: (S, byte) -> S, c: S, u: seq<byte>)
    requires |u| == 4
    ensures Run(step, c, u) == step(step(step(step(c, u[0]), u[1]), u[2]), u[3])
  {
    assert u == [u[0], u[1], u[2], u[3]] && u[..3] == [u[0], u[1], u[2]];
    assert u[..3][..2] == [u[0], u[1]] && [u[0], u[1]][..1] == [u[0]] && [u[0]][..0] == [];
    calc {
      Run(step, c, u);
      step(Run(step, c, u[..3]), u[3]);
      step(step(Run(step, c, [u[0], u[1]]), u[2]), u[3]);
      { Run2(step, c, [u[0], u[1]]); }
      step(step(step(step(c, u[0]), u[1]), u[2]), u[3]);
    }
  }

  lemma Run2<S>(step: (S, byte) -> S, c: S, u: seq<byte>)
    requires |u| == 2
    ensures Run(step, c, u) == step(step(c, u[0]), u[1])
  {
    assert u[..1] == [u[0]] && [u[0]][..0] == [];
    assert Run(step, c, [u[0]]) == step(Run(step, c, []), u[0]);
  }

  /** Adding a word after `m` iterations is adding it, shifted up, before them. */
  lemma FedLater<S(!new)>(f: S -> S, plus: (S, S) -> S, x: S, m: nat, y: S, n: nat)
    requires Additive(f, plus)
    ensures Iterate(f, plus(Iterate(f, x, m), Iterate(f, y, m)), n) == Iterate(f, plus(x, y), m + n)
  {
    IterateAdditive(f, plus, x, y, m);
    IterateSum(f, plus(x, y), m, n);
  }
}
