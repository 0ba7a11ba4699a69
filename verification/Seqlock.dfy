/** The seqlock that carries control-cycle snapshots from the control thread to everybody else,
    as a state machine whose steps are single word accesses. Any number of readers run against one
    writer; every interleaving of their steps is a run. Accesses are sequentially consistent. */
module Seqlock {
  import opened Bytes

  type Word = int
  type Sample = seq<Word>

  /** Where the writer is in `so101_shm_publish`, with its locals. The copy may touch the words in any order. */
  datatype Writer =
    | Idle
    | Loaded(q: U32, src: Sample)
    | Copying(q: U32, src: Sample, todo: set<nat>)

  /** Where a reader is in `so101_shm_read`. `k` counts attempts; the sequence word was `q1`.
      For the proofs, `begin` and `t1` are the values of `ticks` when the read began and when the
      current attempt loaded the sequence word, and `t2` when it loaded it again. */
  datatype Reader =
    | Outside
    | Trying(k: nat, max: nat, begin: nat)
    | Reading(k: nat, max: nat, begin: nat, q1: U32, t1: nat, todo: set<nat>, dst: Sample)
    | Accepted(k: nat, dst: Sample, begin: nat, t1: nat, t2: nat)
    | GaveUp(begin: nat)

  /** `ticks` counts the stores to the sequence word without wrapping; `hist` lists the samples
      whose publication is complete, the initial contents first. */
  datatype State = State(
    seqWord: U32, mem: Sample, writer: Writer, readers: seq<Reader>, ticks: nat, hist: seq<Sample>)

  datatype Action =
    | LoadSeq(src: Sample) | StoreOdd | StoreWord(j: nat) | StoreEven
    | Begin(r: nat, max: nat) | LoadFirst(r: nat) | LoadWord(r: nat, j: nat) | LoadSecond(r: nat)

  function Init(mem: Sample, readers: nat): State {
    State(0, mem, Idle, seq(readers, _ => Outside), 0, [mem])
  }

  predicate Enabled(s: State, a: Action) {
    match a
    case LoadSeq(src) => s.writer.Idle? && |src| == |s.mem|
    case StoreOdd => s.writer.Loaded?
    case StoreWord(j) => s.writer.Copying? && j in s.writer.todo && j < |s.mem| && j < |s.writer.src|
    case StoreEven => s.writer.Copying? && s.writer.todo == {}
    case Begin(r, _) => r < |s.readers| && !s.readers[r].Trying? && !s.readers[r].Reading?
    case LoadFirst(r) => r < |s.readers| && s.readers[r].Trying?
    case LoadWord(r, j) =>
      && r < |s.readers| && s.readers[r].Reading? && j in s.readers[r].todo
      && j < |s.mem| && j < |s.readers[r].dst|
    case LoadSecond(r) => r < |s.readers| && s.readers[r].Reading? && s.readers[r].todo == {}
  }

  /** A failed attempt: one more, or the reader gives up. */
  function Retry(k: nat, max: nat, begin: nat): Reader {
    if k < max then Trying(k, max, begin) else GaveUp(begin)
  }

  function Apply(s: State, a: Action): State
    requires Enabled(s, a)
  {
    match a
    case LoadSeq(src) => s.(writer := Loaded(s.seqWord, src))
    case StoreOdd =>
      s.(seqWord := AddU32(s.writer.q, 1), ticks := s.ticks + 1,
         writer := Copying(s.writer.q, s.writer.src, UpTo(|s.mem|)))
    case StoreWord(j) =>
      s.(mem := s.mem[j := s.writer.src[j]], writer := s.writer.(todo := s.writer.todo - {j}))
    case StoreEven =>
      s.(seqWord := AddU32(s.writer.q, 2), ticks := s.ticks + 1, writer := Idle, hist := s.hist + [s.writer.src])
    case Begin(r, max) => s.(readers := s.readers[r := Retry(0, max, s.ticks)])
    case LoadFirst(r) =>
      var x := s.readers[r];
      s.(readers := s.readers[r :=
        if s.seqWord % 2 == 1 then Retry(x.k + 1, x.max, x.begin)
        else Reading(x.k, x.max, x.begin, s.seqWord, s.ticks, UpTo(|s.mem|), seq(|s.mem|, _ => 0))])
    case LoadWord(r, j) =>
      var x := s.readers[r];
      s.(readers := s.readers[r := x.(todo := x.todo - {j}, dst := x.dst[j := s.mem[j]])])
    case LoadSecond(r) =>
      var x := s.readers[r];
      s.(readers := s.readers[r :=
        if x.q1 == s.seqWord then Accepted(x.k, x.dst, x.begin, x.t1, s.ticks)
        else Retry(x.k + 1, x.max, x.begin)])
  }

  /** A run: actions that are enabled one after the other. */
  predicate Runs(s: State, run: seq<Action>)
    decreases |run|
  {
    run == [] || (Enabled(s, run[0]) && Runs(Apply(s, run[0]), run[1..]))
  }

  function After(s: State, run: seq<Action>): State
    requires Runs(s, run)
    decreases |run|
  {
    if run == [] then s else After(Apply(s, run[0]), run[1..])
  }

  // --------------------------------------------------------------- invariant

  /** What the shared words look like, as the writer leaves them. */
  ghost predicate WriterInv(seqWord: U32, mem: Sample, w: Writer, ticks: nat, hist: seq<Sample>) {
    && seqWord == ticks % U32_SIZE
    && |hist| == (ticks + 1) / 2 + (if w.Copying? then 0 else 1)
    && |hist| > 0
    && (forall h :: h in hist ==> |h| == |mem|)
    && match w
       case Idle => ticks % 2 == 0 && mem == hist[ticks / 2]
       case Loaded(q, src) => ticks % 2 == 0 && mem == hist[ticks / 2] && q == seqWord && |src| == |mem|
       case Copying(q, src, todo) =>
         && ticks % 2 == 1 && q == (ticks - 1) % U32_SIZE && |src| == |mem|
         && (forall j :: j in todo ==> j < |mem|)
         && forall j :: 0 <= j < |mem| ==> mem[j] == if j in todo then hist[ticks / 2][j] else src[j]
  }

  /** A reader that copies: as long as the sequence word has not been stored to since it loaded it,
      every word it has copied belongs to the sample that was current then. */
  ghost predicate ReaderInv(x: Reader, n: nat, ticks: nat, hist: seq<Sample>) {
    match x
    case Outside => true
    case Trying(k, max, begin) => k < max && begin <= ticks
    case Reading(k, max, begin, q1, t1, todo, dst) =>
      && k < max && begin <= t1 <= ticks && t1 % 2 == 0 && q1 == t1 % U32_SIZE && |dst| == n
      && t1 / 2 < |hist| && |hist[t1 / 2]| == n
      && (ticks == t1 ==> forall j :: 0 <= j < n && j !in todo ==> dst[j] == hist[t1 / 2][j])
    case Accepted(k, dst, begin, t1, t2) =>
      && begin <= t1 <= t2 <= ticks && t1 % 2 == 0 && t1 % U32_SIZE == t2 % U32_SIZE
      && t1 / 2 < |hist| && (t2 - t1 < U32_SIZE ==> dst == hist[t1 / 2])
    case GaveUp(begin) => begin <= ticks
  }

  ghost predicate Inv(s: State) {
    && WriterInv(s.seqWord, s.mem, s.writer, s.ticks, s.hist)
    && forall r :: 0 <= r < |s.readers| ==> ReaderInv(s.readers[r], |s.mem|, s.ticks, s.hist)
  }

  /** Two counts less than 2^32 apart are equal when they agree modulo 2^32. */
  lemma SameTicks(t1: nat, t2: nat)
    requires t1 <= t2 < t1 + U32_SIZE && t1 % U32_SIZE == t2 % U32_SIZE
    ensures t1 == t2
  {
    var a, b := t1 / U32_SIZE, t2 / U32_SIZE;
    assert t1 == a * U32_SIZE + t1 % U32_SIZE && t2 == b * U32_SIZE + t2 % U32_SIZE;
    assert 0 <= (b - a) * U32_SIZE < U32_SIZE;
  }

  lemma WriterKeeps(s: State, a: Action)
    requires Inv(s) && Enabled(s, a)
    ensures var s' := Apply(s, a);
            && WriterInv(s'.seqWord, s'.mem, s'.writer, s'.ticks, s'.hist)
            && |s'.mem| == |s.mem| && s.ticks <= s'.ticks && s.hist <= s'.hist
            && (a.LoadSeq? || a.StoreOdd? || a.StoreWord? || a.StoreEven? ==> s'.readers == s.readers)
            && (a.StoreWord? ==> s'.ticks == s.ticks && s.ticks % 2 == 1)
            && (s'.ticks == s.ticks && s.ticks % 2 == 0 ==> s'.mem == s.mem)
  {
    match a
    case StoreOdd =>
      CountU32(s.ticks, 1);
    case StoreEven =>
      CountU32(s.ticks - 1, 2);
      assert s.mem == s.writer.src;
    case _ =>
  }

  lemma ReaderStays(x: Reader, n: nat, ticks: nat, hist: seq<Sample>, ticks': nat, hist': seq<Sample>)
    requires ReaderInv(x, n, ticks, hist) && ticks <= ticks' && hist <= hist'
    ensures ReaderInv(x, n, ticks', hist')
  {
  }

  /** A step of a reader keeps its own invariant. */
  lemma ReaderKeeps(s: State, a: Action, r: nat)
    requires Inv(s) && Enabled(s, a) && r < |s.readers|
    requires a == LoadFirst(r) || (a.Begin? && a.r == r) || (a.LoadWord? && a.r == r) || a == LoadSecond(r)
    ensures ReaderInv(Apply(s, a).readers[r], |s.mem|, s.ticks, s.hist)
  {
    var x := s.readers[r];
    match a
    case LoadFirst(_) =>
      if s.seqWord % 2 == 0 {
        EvenWord(s.ticks);
        assert !s.writer.Copying?;
      }
    case LoadWord(_, j) =>
      if s.ticks == x.t1 {
        assert s.mem == s.hist[x.t1 / 2];
      }
    case LoadSecond(_) =>
      if x.q1 == s.seqWord && s.ticks - x.t1 < U32_SIZE {
        SameTicks(x.t1, s.ticks);
        assert x.dst == s.hist[x.t1 / 2];
      }
    case _ =>
  }

  lemma EvenWord(ticks: nat)
    ensures ticks % U32_SIZE % 2 == ticks % 2
  {
    assert ticks == 2 * (ticks / U32_SIZE * 0x8000_0000) + ticks % U32_SIZE;
  }

  lemma StepKeepsInv(s: State, a: Action)
    requires Inv(s) && Enabled(s, a)
    ensures Inv(Apply(s, a)) && s.ticks <= Apply(s, a).ticks && s.hist <= Apply(s, a).hist
  {
    var s' := Apply(s, a);
    WriterKeeps(s, a);
    forall r | 0 <= r < |s'.readers| ensures ReaderInv(s'.readers[r], |s'.mem|, s'.ticks, s'.hist) {
      if s'.readers[r] == s.readers[r] {
        ReaderStays(s.readers[r], |s.mem|, s.ticks, s.hist, s'.ticks, s'.hist);
      } else {
        ReaderKeeps(s, a, r);
      }
    }
  }

  lemma {:induction false} RunKeepsInv(s: State, run: seq<Action>)
    requires Inv(s) && Runs(s, run)
    ensures Inv(After(s, run)) && s.ticks <= After(s, run).ticks && s.hist <= After(s, run).hist
    decreases |run|
  {
    if run != [] {
      StepKeepsInv(s, run[0]);
      RunKeepsInv(Apply(s, run[0]), run[1..]);
    }
  }

  // ---------------------------------------------------------------- theorems

  /** In every run, an accepted read is exactly one published sample, the one that was current when its
      last attempt began: not torn, not older than the start of the read, not newer than its end.
      The proviso is that fewer than 2^31 publications fall inside the attempt. */
  lemma AcceptedIsSnapshot(mem: Sample, readers: nat, run: seq<Action>, r: nat)
    requires Runs(Init(mem, readers), run)
    requires var s := After(Init(mem, readers), run);
             r < |s.readers| && s.readers[r].Accepted? && s.readers[r].t2 - s.readers[r].t1 < U32_SIZE
    ensures var s := After(Init(mem, readers), run); var x := s.readers[r];
            && x.t1 / 2 < |s.hist| && x.dst == s.hist[x.t1 / 2]
            && x.begin <= x.t1 == x.t2 <= s.ticks
  {
    RunKeepsInv(Init(mem, readers), run);
    var x := After(Init(mem, readers), run).readers[r];
    SameTicks(x.t1, x.t2);
  }

  ghost predicate SameOrLater(x: Reader, y: Reader, ticks: nat) {
    y == x || match y
              case Outside => false
              case Trying(_, _, begin) => begin >= ticks
              case Reading(_, _, begin, _, _, _, _) => begin >= ticks
              case Accepted(_, _, begin, _, _) => begin >= ticks
              case GaveUp(begin) => begin >= ticks
  }

  lemma {:induction false} LaterReads(s: State, run: seq<Action>, r: nat, x: Reader, ticks: nat)
    requires Runs(s, run) && r < |s.readers| && ticks <= s.ticks
    requires SameOrLater(x, s.readers[r], ticks) && !x.Trying? && !x.Reading?
    ensures r < |After(s, run).readers| && SameOrLater(x, After(s, run).readers[r], ticks)
    decreases |run|
  {
    if run != [] {
      LaterReads(Apply(s, run[0]), run[1..], r, x, ticks);
    }
  }

  /** A reader's successive reads never go back: each accepted read is at least as recent as the one before. */
  lemma ReadsNeverGoBack(s: State, run: seq<Action>, r: nat)
    requires Inv(s) && Runs(s, run) && r < |s.readers| && s.readers[r].Accepted?
    ensures r < |After(s, run).readers|
    ensures var y := After(s, run).readers[r]; y.Accepted? ==> s.readers[r].t1 <= y.t1
  {
    LaterReads(s, run, r, s.readers[r], s.ticks);
    RunKeepsInv(s, run);
  }

  // ----------------------------------------------------- numbered snapshots

  /** The control thread numbers its samples: word 0 is the cycle, and each publication is a new cycle. */
  predicate NumberedRun(s: State, run: seq<Action>)
    requires Runs(s, run)
    decreases |run|
  {
    run == [] || (
      && (run[0].LoadSeq? ==> run[0].src != [] && run[0].src[0] == |s.hist|)
      && NumberedRun(Apply(s, run[0]), run[1..]))
  }

  ghost predicate Numbered(s: State) {
    && s.mem != []
    && (forall v :: 0 <= v < |s.hist| ==> s.hist[v] != [] && s.hist[v][0] == v)
    && (!s.writer.Idle? ==> s.writer.src != [] && s.writer.src[0] == |s.hist|)
  }

  lemma {:induction false} RunKeepsNumbers(s: State, run: seq<Action>)
    requires Inv(s) && Numbered(s) && Runs(s, run) && NumberedRun(s, run)
    ensures Numbered(After(s, run))
    decreases |run|
  {
    if run != [] {
      StepKeepsInv(s, run[0]);
      RunKeepsNumbers(Apply(s, run[0]), run[1..]);
    }
  }

  /** A client that waits for a new cycle looks at the cycle word without the seqlock and reads a
      snapshot only once the word differs from the last cycle it has seen. The snapshot is then strictly
      newer, even if the word it saw was one of a publication still in progress. */
  lemma PeekedSnapshotIsNewer(s: State, run: seq<Action>, r: nat, last: nat)
    requires Inv(s) && Numbered(s) && Runs(s, run) && NumberedRun(s, run)
    requires last <= s.ticks / 2 && s.mem[0] % U32_SIZE != last % U32_SIZE
    requires r < |After(s, run).readers| && After(s, run).readers[r].Accepted?
    requires After(s, run).readers[r].begin >= s.ticks
    requires After(s, run).readers[r].t2 - After(s, run).readers[r].t1 < U32_SIZE
    ensures After(s, run).readers[r].dst != [] && After(s, run).readers[r].dst[0] > last
  {
    var x := After(s, run).readers[r];
    RunKeepsInv(s, run);
    RunKeepsNumbers(s, run);
    SameTicks(x.t1, x.t2);
    assert x.dst == After(s, run).hist[x.t1 / 2];
  }

  // ------------------------------------------------- how far the proviso goes

  lemma {:induction false} RunsAppend(s: State, a: seq<Action>, b: seq<Action>)
    requires Runs(s, a) && Runs(After(s, a), b)
    ensures Runs(s, a + b) && After(s, a + b) == After(After(s, a), b)
    decreases |a|
  {
    if a == [] {
      assert a + b == b;
    } else {
      RunsAppend(Apply(s, a[0]), a[1..], b);
      assert (a + b)[1..] == a[1..] + b;
    }
  }

  function Publication(src: Sample): seq<Action> {
    [LoadSeq(src), StoreOdd, StoreWord(0), StoreWord(1), StoreEven]
  }

  /** One whole publication of a two-word sample, uninterrupted. */
  lemma PublishOnce(s: State, src: Sample)
    requires s.writer.Idle? && |s.mem| == 2 == |src|
    ensures Runs(s, Publication(src))
    ensures After(s, Publication(src)) ==
            s.(seqWord := AddU32(s.seqWord, 2), mem := src, ticks := s.ticks + 2, hist := s.hist + [src])
  {
    var s1 := Apply(s, LoadSeq(src));
    var s2 := Apply(s1, StoreOdd);
    assert UpTo(2) == {0, 1};
    var s3 := Apply(s2, StoreWord(0));
    assert s3.writer.todo == {1};
    var s4 := Apply(s3, StoreWord(1));
    assert s4.writer.todo == {};
    assert s4.mem == src;
    var s5 := Apply(s4, StoreEven);
    assert Runs(s4, [StoreEven]) && After(s4, [StoreEven]) == s5;
    assert Runs(s3, [StoreWord(1), StoreEven]) && After(s3, [StoreWord(1), StoreEven]) == s5;
    assert Runs(s2, [StoreWord(0), StoreWord(1), StoreEven]) && After(s2, [StoreWord(0), StoreWord(1), StoreEven]) == s5;
    assert Publication(src)[1..] == [StoreOdd, StoreWord(0), StoreWord(1), StoreEven];
    assert Publication(src)[1..][1..] == [StoreWord(0), StoreWord(1), StoreEven];
  }

  lemma {:induction false} PublishMany(s: State, src: Sample, n: nat) returns (run: seq<Action>)
    requires s.writer.Idle? && |s.mem| == 2 == |src|
    ensures Runs(s, run)
    ensures var s' := After(s, run);
            && s'.writer.Idle? && s'.readers == s.readers && s'.ticks == s.ticks + 2 * n
            && s'.mem == (if n == 0 then s.mem else src)
            && s'.seqWord == (s.seqWord + 2 * n) % U32_SIZE
            && |s'.hist| == |s.hist| + n
            && forall v :: 0 <= v < |s'.hist| ==> s'.hist[v] == if v < |s.hist| then s.hist[v] else src
    decreases n
  {
    if n == 0 {
      return [];
    }
    run := PublishMany(s, src, n - 1);
    var s' := After(s, run);
    PublishOnce(s', src);
    RunsAppend(s, run, Publication(src));
    CountU32(s.seqWord + 2 * (n - 1), 2);
    run := run + Publication(src);
  }

  /** A reader that has loaded the sequence word and copied one word of two. */
  lemma BeginReading(s: State) returns (run: seq<Action>, end: State)
    requires s.readers == [Outside] && |s.mem| == 2 && s.seqWord == 0
    ensures Runs(s, run) && end == After(s, run)
    ensures end == s.(readers := [Reading(0, 1, s.ticks, 0, s.ticks, {1}, [s.mem[0], 0])])
  {
    var s1 := Apply(s, Begin(0, 1));
    var s2 := Apply(s1, LoadFirst(0));
    assert UpTo(2) == {0, 1};
    end := Apply(s2, LoadWord(0, 0));
    assert end.readers[0].todo == {1} && end.readers[0].dst == [s.mem[0], 0];
    assert end.readers == [end.readers[0]];
    run := [Begin(0, 1), LoadFirst(0), LoadWord(0, 0)];
    assert run[1..] == [LoadFirst(0), LoadWord(0, 0)] && run[1..][1..] == [LoadWord(0, 0)];
    assert Runs(s2, [LoadWord(0, 0)]) && After(s2, [LoadWord(0, 0)]) == end;
    assert Runs(s1, run[1..]) && After(s1, run[1..]) == end;
  }

  /** It copies the other word, and the sequence word is as it was. */
  lemma EndReading(s: State, begin: nat, w: Word) returns (run: seq<Action>, end: State)
    requires s.readers == [Reading(0, 1, begin, 0, begin, {1}, [w, 0])] && |s.mem| == 2 && s.seqWord == 0
    ensures Runs(s, run) && end == After(s, run)
    ensures end == s.(readers := [Accepted(0, [w, s.mem[1]], begin, begin, s.ticks)])
  {
    var s1 := Apply(s, LoadWord(0, 1));
    assert s1.readers[0].todo == {} && s1.readers[0].dst == [w, s.mem[1]];
    end := Apply(s1, LoadSecond(0));
    assert end.readers == [end.readers[0]];
    run := [LoadWord(0, 1), LoadSecond(0)];
    assert run[1..] == [LoadSecond(0)];
    assert Runs(s1, [LoadSecond(0)]) && After(s1, [LoadSecond(0)]) == end;
  }

  /** With exactly 2^31 publications inside one attempt the sequence word comes round to its old value
      and a torn read is accepted: the proviso of `AcceptedIsSnapshot` cannot be weakened. */
  lemma TornRead() returns (run: seq<Action>)
    ensures Runs(Init([0, 0], 1), run)
    ensures var s := After(Init([0, 0], 1), run);
            && |s.readers| == 1 && s.readers[0].Accepted? && s.readers[0].t2 - s.readers[0].t1 == U32_SIZE
            && s.readers[0].dst !in s.hist
  {
    hide Runs, After;
    var s := Init([0, 0], 1);
    assert s.readers == [Outside];
    var first, begun := BeginReading(s);
    var middle := PublishMany(begun, [1, 1], 0x8000_0000);
    var last, end := EndReading(After(begun, middle), 0, 0);
    RunsAppend(begun, middle, last);
    RunsAppend(s, first, middle + last);
    run := first + (middle + last);
    forall h | h in end.hist ensures h != [0, 1] {
      assert h == [0, 0] || h == [1, 1];
    }
  }
}
