// The mid-tier mixing guest: LeanTee/Sp1Mid.lean, its C rendering and the Rust main that folds words through it.

module Mix32 {
  const TAG: bv32 := 0x4d494431
  const MAX_WORDS: nat := 32
  const EXTRA_ROUNDS: nat := 24

  type u32 = n: nat | n < 0x1_0000_0000 witness 0

  /** `lean_tee_sp1_mid_step`. */
  function Step(acc: bv32, x: bv32): bv32 {
    var y := acc ^ x;
    y * 1664525 + 1013904223
  }

  /** 4276115653 is the inverse of 1664525 modulo 2^32. */
  function Unstep(r: bv32, x: bv32): bv32 {
    ((r - 1013904223) * 4276115653) ^ x
  }

  // The two compositions, each first on the written-out expression, where the constants cancel.

  lemma Undo(s: bv32, x: bv32)
    ensures Unstep((s ^ x) * 1664525 + 1013904223, x) == s
  {
  }

  lemma Redo(s: bv32, x: bv32)
    ensures Step(((s - 1013904223) * 4276115653) ^ x, x) == s
  {
  }

  lemma StepMeans(s: bv32, x: bv32)
    ensures Step(s, x) == (s ^ x) * 1664525 + 1013904223
    ensures Unstep(s, x) == ((s - 1013904223) * 4276115653) ^ x
  {
  }

  /** For each word, a step is a permutation of the 32-bit states, with `Unstep` as its inverse. */
  lemma StepIsPermutation(s: bv32, x: bv32)
    ensures Unstep(Step(s, x), x) == s
    ensures Step(Unstep(s, x), x) == s
  {
    hide Step, Unstep;
    StepMeans(s, x);
    Undo(s, x);
    Redo(s, x);
  }

  /** The state and the word enter symmetrically, so for each state a step is also a permutation of the words. */
  lemma StepIsSymmetric(s: bv32, x: bv32)
    ensures Step(s, x) == Step(x, s)
  {
  }

  /** The loop counter as a word. */
  function Index(i: u32): bv32 { i as bv32 }

  /** `n` rounds with x = 0, ..., n - 1 (LeanTee/Sp1Mid.lean `rounds`). */
  function Rounds(seed: bv32, n: u32): bv32
    decreases n
  {
    if n == 0 then seed else Step(Rounds(seed, n - 1), Index(n - 1))
  }

  function Unrounds(r: bv32, n: u32): bv32
    decreases n
  {
    if n == 0 then r else Unrounds(Unstep(r, Index(n - 1)), n - 1)
  }

  /** Any number of rounds is a permutation of the seeds. */
  lemma {:induction false} RoundsArePermutation(s: bv32, n: u32)
    ensures Unrounds(Rounds(s, n), n) == s
    ensures Rounds(Unrounds(s, n), n) == s
    decreases n
  {
    hide Step, Unstep, Index;
    if n != 0 {
      StepIsPermutation(Rounds(s, n - 1), Index(n - 1));
      RoundsArePermutation(s, n - 1);
      StepIsPermutation(s, Index(n - 1));
      RoundsArePermutation(Unstep(s, Index(n - 1)), n - 1);
    }
  }

  /** The C loop `lean_tee_sp1_mid_rounds`. */
  method MidRounds(seed: bv32, n: u32) returns (a: bv32)
    ensures a == Rounds(seed, n)
  {
    hide Step, Index;
    a := seed;
    var i: nat := 0;
    while i < n
      invariant 0 <= i <= n
      invariant a == Rounds(seed, i)
    {
      a := Step(a, Index(i));
      i := i + 1;
    }
  }

  /** The state after folding a list of words. */
  function Fold(acc: bv32, words: seq<bv32>): bv32
    decreases words
  {
    if words == [] then acc else Fold(Step(acc, words[0]), words[1..])
  }

  function Unfold(r: bv32, words: seq<bv32>): bv32
    decreases words
  {
    if words == [] then r else Unstep(Unfold(r, words[1..]), words[0])
  }

  lemma {:induction false} FoldIsPermutation(s: bv32, words: seq<bv32>)
    ensures Unfold(Fold(s, words), words) == s
    ensures Fold(Unfold(s, words), words) == s
    decreases words
  {
    hide Step, Unstep;
    if words != [] {
      FoldIsPermutation(Step(s, words[0]), words[1..]);
      StepIsPermutation(s, words[0]);
      FoldIsPermutation(s, words[1..]);
      StepIsPermutation(Unfold(s, words[1..]), words[0]);
    }
  }

  lemma {:induction false} FoldAppend(acc: bv32, a: seq<bv32>, b: seq<bv32>)
    ensures Fold(acc, a + b) == Fold(Fold(acc, a), b)
    decreases a
  {
    hide Step;
    if a == [] {
      assert a + b == b;
    } else {
      assert (a + b)[1..] == a[1..] + b;
      FoldAppend(Step(acc, a[0]), a[1..], b);
    }
  }

  /** What the guest commits: the tag and the mixed word.  A read past the end of the input aborts the guest. */
  datatype Committed = Aborted | Committed(tag: bv32, out: bv32)

  function Output(words: seq<bv32>): bv32 {
    Rounds(Fold(TAG, if |words| <= MAX_WORDS then words else words[..MAX_WORDS]), EXTRA_ROUNDS)
  }

  /** `main`: the first value read is the count, `stream` holds the words that follow it. */
  method MidMain(nRaw: u32, stream: seq<bv32>) returns (result: Committed, consumed: nat)
    ensures result == if nRaw <= |stream| then Committed(TAG, Output(stream[..nRaw])) else Aborted
    ensures consumed == if nRaw <= |stream| then nRaw else |stream|
  {
    hide Step;
    var n := if nRaw < MAX_WORDS then nRaw else MAX_WORDS;
    var acc := TAG;
    var i: nat := 0;
    while i < n
      invariant 0 <= i <= n && i <= |stream|
      invariant acc == Fold(TAG, stream[..i])
    {
      if i == |stream| {
        return Aborted, i;
      }
      FoldAppend(TAG, stream[..i], [stream[i]]);
      assert stream[..i + 1] == stream[..i] + [stream[i]];
      acc := Step(acc, stream[i]);
      i := i + 1;
    }
    while i < nRaw
      invariant n <= i <= nRaw && i <= |stream|
    {
      if i == |stream| {
        return Aborted, i;
      }
      i := i + 1;
    }
    assert stream[..nRaw][..n] == stream[..n];
    var out := MidRounds(acc, EXTRA_ROUNDS);
    return Committed(TAG, out), i;
  }

  /** With all other words fixed, the output is a permutation of any one of the first 32 words: every output has exactly
      one preimage, the word computed here. */
  function WordFor(before: seq<bv32>, after: seq<bv32>, out: bv32): bv32 {
    Unstep(Unfold(Unrounds(out, EXTRA_ROUNDS), after), Fold(TAG, before))
  }

  lemma OutputAt(before: seq<bv32>, x: bv32, after: seq<bv32>)
    requires |before| + 1 + |after| <= MAX_WORDS
    ensures Output(before + [x] + after) == Rounds(Fold(Step(x, Fold(TAG, before)), after), EXTRA_ROUNDS)
  {
    hide Step, Rounds;
    FoldAppend(TAG, before + [x], after);
    FoldAppend(TAG, before, [x]);
    StepIsSymmetric(Fold(TAG, before), x);
  }

  lemma WordDeterminesOutput(before: seq<bv32>, x: bv32, after: seq<bv32>, out: bv32)
    requires |before| + 1 + |after| <= MAX_WORDS
    ensures Output(before + [x] + after) == out <==> x == WordFor(before, after, out)
  {
    hide Step, Unstep, Rounds, Unrounds, Fold, Unfold, Output;
    var mask := Fold(TAG, before);
    OutputAt(before, x, after);
    StepIsPermutation(x, mask);
    FoldIsPermutation(Step(x, mask), after);
    RoundsArePermutation(Fold(Step(x, mask), after), EXTRA_ROUNDS);
    var y := WordFor(before, after, out);
    StepIsPermutation(Unfold(Unrounds(out, EXTRA_ROUNDS), after), mask);
    FoldIsPermutation(Unrounds(out, EXTRA_ROUNDS), after);
    RoundsArePermutation(out, EXTRA_ROUNDS);
  }

  /** Changing exactly one word changes the output just when it is one of the first 32; the rest is drained unread. */
  lemma OneWordMatters(words: seq<bv32>, k: nat, x: bv32)
    requires k < |words| && x != words[k]
    ensures Output(words[k := x]) != Output(words) <==> k < 32
  {
    var n := if |words| <= MAX_WORDS then |words| else MAX_WORDS;
    if k < MAX_WORDS {
      var before, after := words[..k], words[k + 1..n];
      hide Step, Unstep, Rounds, Unrounds, Fold, Unfold, WordFor;
      Window(words, k, x, n);
      WordDeterminesOutput(before, words[k], after, Output(words));
      WordDeterminesOutput(before, x, after, Output(words));
    } else {
      assert words[k := x][..MAX_WORDS] == words[..MAX_WORDS];
    }
  }

  lemma Window(words: seq<bv32>, k: nat, x: bv32, n: nat)
    requires k < n == (if |words| <= MAX_WORDS then |words| else MAX_WORDS)
    ensures Output(words) == Output(words[..k] + [words[k]] + words[k + 1..n])
    ensures Output(words[k := x]) == Output(words[..k] + [x] + words[k + 1..n])
  {
    hide Rounds, Fold;
    assert words == words[..|words|];
    assert words[k := x] == words[k := x][..|words|];
    assert words[..n] == words[..k] + [words[k]] + words[k + 1..n];
    assert words[k := x][..n] == words[..k] + [x] + words[k + 1..n];
  }

  // ---------- Known values ----------

  /** The states of the rounds that start from the tag. */
  function FromTag(t: nat): bv32
    requires t <= 24
  {
    match t
    case 0 => 0x4d494431 case 1 => 0x031befdc case 2 => 0xf3012f98 case 3 => 0xb27fba31
    case 4 => 0x5ffd53e9 case 5 => 0x3de1a468 case 6 => 0x570cbae8 case 7 => 0xfbcd4575
    case 8 => 0x97a8e629 case 9 => 0xb4ecc90c case 10 => 0x660a26a0 case 11 => 0x3cf4a601
    case 12 => 0x05fd5de1 case 13 => 0xa9de2668 case 14 => 0x1fe02480 case 15 => 0xbb3f6295
    case 16 => 0xa0fa5131 case 17 => 0x11b1380c case 18 => 0x399f5ad8 case 19 => 0x856d0ba1
    case 20 => 0x9a037769 case 21 => 0x1b6cd2b8 case 22 => 0x8fcb9428 case 23 => 0x20e42e85
    case _ => 0x5ed57cc9
  }

  lemma FromTag0(t: u32)
    requires t < 6
    ensures FromTag(t + 1) == Step(FromTag(t), Index(t))
  {
  }

  lemma FromTag6(t: u32)
    requires 6 <= t < 12
    ensures FromTag(t + 1) == Step(FromTag(t), Index(t))
  {
  }

  lemma FromTag12(t: u32)
    requires 12 <= t < 18
    ensures FromTag(t + 1) == Step(FromTag(t), Index(t))
  {
  }

  lemma FromTag18(t: u32)
    requires 18 <= t < 24
    ensures FromTag(t + 1) == Step(FromTag(t), Index(t))
  {
  }

  lemma {:induction false} RoundsFromTag(t: u32)
    requires t <= 24
    ensures Rounds(0x4d494431, t) == FromTag(t)
  {
    hide Step, Index, FromTag;
    if t == 0 {
      StartsAtTag();
    } else {
      RoundsFromTag(t - 1);
      if t <= 6 {
        FromTag0(t - 1);
      } else if t <= 12 {
        FromTag6(t - 1);
      } else if t <= 18 {
        FromTag12(t - 1);
      } else {
        FromTag18(t - 1);
      }
    }
  }

  lemma StartsAtTag()
    ensures FromTag(0) == 0x4d494431
  {
  }

  lemma LastFromTag()
    ensures FromTag(24) == 0x5ed57cc9
  {
  }

  lemma TwoSteps()
    ensures Step(Step(TAG, 1), 2) == 0xdb7ca0c8
  {
    assert Step(TAG, 1) == 0x030289cf;
  }

  /** What the guest commits on no words at all. */
  lemma EmptyOutput()
    ensures Output([]) == 0x5ed57cc9
  {
    hide Step, Rounds, FromTag;
    RoundsFromTag(24);
    LastFromTag();
  }

  /** The state after folding the words 1 and 2. */
  lemma FoldedValue()
    ensures Fold(TAG, [1, 2]) == 0xdb7ca0c8
  {
    hide Step;
    FoldOfTwo(TAG, 1, 2);
    TwoSteps();
  }

  lemma FoldOfTwo(acc: bv32, x: bv32, y: bv32)
    ensures Fold(acc, [x, y]) == Step(Step(acc, x), y)
  {
    hide Step;
    assert [x, y][1..] == [y] && [y][1..] == [];
    assert Fold(Step(acc, x), [y]) == Fold(Step(Step(acc, x), y), []);
  }
}
