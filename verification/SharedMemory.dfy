/** The two seqlock helpers as they are written: a publication that copies a sample into the segment
    in place, and a read that retries. The writer is a thread of its own: before every access the
    reader makes, the scheduler may let it make any number of the moves of module `Seqlock`. */
module SharedMemory {
  import opened Bytes
  import opened Seqlock

  predicate WriterMove(a: Action) {
    a.LoadSeq? || a.StoreOdd? || a.StoreWord? || a.StoreEven?
  }

  class Segment {
    var seqWord: U32
    const words: array<Word>
    var writer: Writer
    /** What the scheduler lets the writer attempt before each access of the reader. */
    var schedule: seq<seq<Action>>
    ghost var ticks: nat
    ghost var hist: seq<Sample>

    /** The segment as a state of the machine. */
    ghost function Shared(): State
      reads this, words
    {
      State(seqWord, words[..], writer, [], ticks, hist)
    }

    ghost predicate Valid()
      reads this, words
    {
      WriterInv(seqWord, words[..], writer, ticks, hist)
    }

    constructor (n: nat)
      ensures Valid() && fresh(words) && words.Length == n && writer.Idle? && ticks == 0
    {
      seqWord, words, writer, schedule := 0, new Word[n](_ => 0), Idle, [];
      ticks, hist := 0, [];
      new;
      hist := [words[..]];
    }

    /** One move of the writer, in place. */
    method Move(a: Action)
      requires Valid() && WriterMove(a) && Enabled(Shared(), a)
      modifies this`seqWord, this`writer, this`ticks, this`hist, words
      ensures Valid() && Shared() == Apply(old(Shared()), a)
      ensures old(ticks) <= ticks && old(hist) <= hist
      ensures ticks == old(ticks) && ticks % 2 == 0 ==> words[..] == old(words[..])
    {
      assert Inv(Shared());
      WriterKeeps(Shared(), a);
      match a
      case LoadSeq(src) =>
        writer := Loaded(seqWord, src);
      case StoreOdd =>
        seqWord := AddU32(writer.q, 1);
        writer, ticks := Copying(writer.q, writer.src, UpTo(words.Length)), ticks + 1;
      case StoreWord(j) =>
        words[j] := writer.src[j];
        writer := writer.(todo := writer.todo - {j});
      case StoreEven =>
        seqWord := AddU32(writer.q, 2);
        hist, writer, ticks := hist + [writer.src], Idle, ticks + 1;
    }

    /** The writer gets to run: it makes those of the scheduled moves that it can make. */
    method Interfere()
      requires Valid()
      modifies this`seqWord, this`writer, this`schedule, this`ticks, this`hist, words
      ensures Valid() && old(ticks) <= ticks && old(hist) <= hist
      ensures ticks == old(ticks) && ticks % 2 == 0 ==> words[..] == old(words[..])
    {
      if schedule == [] {
        return;
      }
      var moves := schedule[0];
      schedule := schedule[1..];
      for i := 0 to |moves|
        invariant Valid() && old(ticks) <= ticks && old(hist) <= hist
        invariant ticks == old(ticks) && ticks % 2 == 0 ==> words[..] == old(words[..])
      {
        var can := CanMove(moves[i]);
        if can {
          Move(moves[i]);
        }
      }
    }

    method CanMove(a: Action) returns (can: bool)
      requires Valid()
      ensures can <==> WriterMove(a) && Enabled(Shared(), a)
    {
      can := match a
        case LoadSeq(src) => writer.Idle? && |src| == words.Length
        case StoreOdd => writer.Loaded?
        case StoreWord(j) => writer.Copying? && j in writer.todo && j < words.Length && j < |writer.src|
        case StoreEven => writer.Copying? && writer.todo == {}
        case _ => false;
    }

    /** The writer's side, undisturbed: the sequence word goes odd, the sample is copied word by word,
        and the sequence word goes even. */
    method Publish(src: Sample)
      requires Valid() && writer.Idle? && |src| == words.Length
      modifies this`seqWord, this`writer, this`ticks, this`hist, words
      ensures Valid() && writer.Idle? && words[..] == src
      ensures seqWord == AddU32(old(seqWord), 2) && ticks == old(ticks) + 2 && hist == old(hist) + [src]
    {
      Move(LoadSeq(src));
      Move(StoreOdd);
      for j := 0 to words.Length
        invariant Valid() && ticks == old(ticks) + 1 && hist == old(hist)
        invariant writer.Copying? && writer.src == src && writer.q == old(seqWord)
        invariant forall i :: i in writer.todo <==> j <= i < words.Length
      {
        Move(StoreWord(j));
      }
      assert writer.todo == {};
      Move(StoreEven);
    }

    /** The reader's side. Answers how many times it had to retry, or -1 if it gave up.
        `t1` is where the sequence word was when the last attempt began. */
    method Read(dst: array<Word>, maxTries: int) returns (retries: int, ghost t1: nat)
      requires Valid() && dst != words && dst.Length == words.Length
      modifies this`seqWord, this`writer, this`schedule, this`ticks, this`hist, words, dst
      ensures Valid() && old(ticks) <= ticks && old(hist) <= hist
      ensures retries == -1 || 0 <= retries < maxTries
      ensures maxTries <= 0 ==> retries == -1
      ensures retries >= 0 && ticks - t1 < U32_SIZE ==>
                && old(ticks) <= t1 == ticks && t1 / 2 < |hist| && dst[..] == hist[t1 / 2]
    {
      t1 := ticks;
      retries := 0;
      while retries < maxTries
        invariant Valid() && old(ticks) <= ticks && old(hist) <= hist
        invariant 0 <= retries && (maxTries > 0 ==> retries <= maxTries)
        decreases maxTries - retries
      {
        Interfere();
        var q1 := seqWord;
        t1 := ticks;
        EvenWord(ticks);
        if q1 % 2 == 1 {
          retries := retries + 1;
          continue;
        }
        for j := 0 to words.Length
          invariant Valid() && old(ticks) <= t1 <= ticks && old(hist) <= hist
          invariant t1 / 2 < |hist| && |hist[t1 / 2]| == words.Length
          invariant ticks == t1 ==> dst[..j] == hist[t1 / 2][..j]
        {
          Interfere();
          dst[j] := words[j];
          assert ticks == t1 ==> words[..] == hist[t1 / 2];
        }
        Interfere();
        if q1 == seqWord {
          if ticks - t1 < U32_SIZE {
            SameTicks(t1, ticks);
          }
          return;
        }
        retries := retries + 1;
      }
      retries := -1;
    }
  }
}
