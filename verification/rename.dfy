/** Output-name de-duplication of the posture dataset builder
    (data/prepare_dataset.py, lines 49-52): while a name is taken, an underscore is
    inserted in front of its last four characters. */
module Rename {

  import Text

  /** Where one renaming step inserts the underscore: Python's `name[:-4]` keeps
      everything but the last four characters, or nothing for shorter names. */
  function Cut(name: string): (k: nat)
    ensures k <= |name|
    ensures |name| - k == if |name| < 4 then |name| else 4
  {
    if |name| >= 4 then |name| - 4 else 0
  }

  /** One renaming step, `name[:-4] + "_" + name[-4:]`. */
  function Step(name: string): (r: string)
    ensures |r| == |name| + 1
    ensures r[..Cut(name)] == name[..Cut(name)]
    ensures r[Cut(name)] == '_'
    ensures r[Cut(name) + 1..] == name[Cut(name)..]
  {
    name[..Cut(name)] + "_" + name[Cut(name)..]
  }

  /** Removes the underscore a renaming step inserted. */
  function Unstep(r: string): string
    requires |r| >= 1
  {
    var k := Cut(r[..|r| - 1]);
    r[..k] + r[k + 1..]
  }

  /** A renaming step can be undone: no information about the old name is lost. */
  lemma UnstepStep(name: string)
    ensures Unstep(Step(name)) == name
  {
    var r := Step(name);
    assert r[..|r| - 1][..Cut(name)] == name[..Cut(name)];
    assert Cut(r[..|r| - 1]) == Cut(name);
    assert name[..Cut(name)] + name[Cut(name)..] == name;
  }

  /** Distinct names stay distinct after a renaming step. */
  lemma StepInjective(a: string, b: string)
    requires Step(a) == Step(b)
    ensures a == b
  {
    UnstepStep(a);
    UnstepStep(b);
  }

  /** A renaming step keeps the last min(4, |name|) characters as the suffix, which is
      what keeps a four-character extension such as `.jpg` in place. */
  lemma StepKeepsSuffix(name: string)
    ensures Text.EndsWith(Step(name), name[Cut(name)..])
    ensures |name| >= 4 ==> Text.EndsWith(Step(name), name[|name| - 4..])
    ensures |name| < 4 ==> Step(name) == "_" + name
  {
  }

  /** A renaming step introduces no character other than `_`. */
  lemma StepChars(name: string, c: char)
    requires c in Step(name)
    ensures c in name || c == '_'
  {
    var r := Step(name);
    var k := Cut(name);
    var i :| 0 <= i < |r| && r[i] == c;
    if i < k {
      assert r[..k][i] == name[..k][i];
    } else if i > k {
      assert r[k + 1..][i - k - 1] == name[k..][i - k - 1];
    }
  }

  /** The name after `n` renaming steps. */
  function StepN(name: string, n: nat): (r: string)
    ensures |r| == |name| + n
    decreases n
  {
    if n == 0 then name else StepN(Step(name), n - 1)
  }

  /** The taken names at least `n` characters long; it shrinks with every step,
      which is why the renaming loop stops. */
  function LongNames(taken: set<string>, n: nat): set<string>
  {
    set k | k in taken && |k| >= n
  }

  /** The loop `while name in dataset_info: name = Step(name)`. The result is not
      taken; it is the name after as many steps as it is longer than the original;
      and every intermediate name was taken, so no shorter candidate was skipped. */
  function FreshName(name: string, taken: set<string>): (r: string)
    ensures r !in taken
    ensures |r| >= |name|
    ensures r == StepN(name, |r| - |name|)
    ensures forall j :: 0 <= j < |r| - |name| ==> StepN(name, j) in taken
    decreases LongNames(taken, |name|)
  {
    if name !in taken then name
    else
      assert name in LongNames(taken, |name|);
      assert name !in LongNames(taken, |name| + 1);
      var r := FreshName(Step(name), taken);
      assert forall j :: 0 < j < |r| - |name| ==> StepN(name, j) == StepN(Step(name), j - 1);
      r
  }

  /** The loop takes at most as many steps as there are taken names at least as
      long as the original: each step passes a different one of them. */
  lemma {:induction false} RenameBound(name: string, taken: set<string>)
    ensures |FreshName(name, taken)| - |name| <= |LongNames(taken, |name|)| <= |taken|
    decreases LongNames(taken, |name|)
  {
    SubsetSize(LongNames(taken, |name|), taken);
    if name in taken {
      var longer := LongNames(taken, |name| + 1);
      assert longer <= LongNames(taken, |name|) - {name};
      SubsetSize(longer, LongNames(taken, |name|) - {name});
      RenameBound(Step(name), taken);
    }
  }

  lemma {:induction false} SubsetSize<T>(a: set<T>, b: set<T>)
    requires a <= b
    ensures |a| <= |b|
  {
    if a != {} {
      var x :| x in a;
      SubsetSize(a - {x}, b - {x});
    }
  }

  /** A name built from the original by renaming steps: its length tells how many. */
  predicate IsRenamingOf(original: string, r: string) {
    |r| >= |original| && r == StepN(original, |r| - |original|)
  }

  /** A renaming of a name free of `c` is free of `c` too, unless `c` is `_`. */
  lemma {:induction false} StepNChars(name: string, n: nat, c: char)
    requires c !in name && c != '_'
    ensures c !in StepN(name, n)
    decreases n
  {
    if n > 0 {
      if c in Step(name) {
        StepChars(name, c);
      }
      StepNChars(Step(name), n - 1, c);
    }
  }

  /** `1.jpg` taken twice over: the third file of that name becomes `1__.jpg`. */
  lemma FreshNameExample()
    ensures FreshName("1.jpg", {"1.jpg", "1_.jpg"}) == "1__.jpg"
  {
    assert Step("1.jpg") == "1_.jpg";
    assert Step("1_.jpg") == "1__.jpg";
  }
}
