/** The client's side of the mailbox as it is written. Everybody else runs whenever the scheduler lets
    them: before each access of the client they may make any number of the moves of module `Mailbox`. */
module SendCommand {
  import opened Bytes
  import opened Modes
  import opened Mailbox

  /** How often the client looks for its answer, a millisecond apart. */
  const POLLS := 1000

  /** `Asleep`: the schedule ends before a sleep of the client does. */
  datatype Outcome = Busy | Answer(result: int) | NoAnswer | Asleep

  function Request(id0: int, cmd: U32, arg: int, pid: int): Words {
    Words(if id0 == 0 then 1 else id0, cmd, arg, pid)
  }

  predicate Mine(a: Action, i: nat) {
    ClientAction(a) && a.i == i
  }

  /** What somebody else does leaves a client where it is, and what has been served stays served. */
  lemma OthersMove(s: State, b: Bounds, a: Action, i: nat)
    requires Enabled(s, b, a) && !Mine(a, i) && i < |s.clients|
    ensures i < |Apply(s, b, a).clients| && Apply(s, b, a).clients[i] == s.clients[i]
    ensures s.log <= Apply(s, b, a).log && s.now <= Apply(s, b, a).now
  {
  }

  class Caller {
    const me: nat
    const b: Bounds
    var shm: State
    /** What the scheduler lets the others attempt before each access of this client. */
    var schedule: seq<seq<Action>>
    /** Where everything began, and every step since, this client's and the others'. */
    ghost var begun: State
    ghost var run: seq<Action>

    ghost predicate Valid()
      reads this
    {
      me < |shm.clients| && Runs(begun, b, run) && shm == After(begun, b, run)
    }

    constructor (me: nat, b: Bounds, shm: State, schedule: seq<seq<Action>>)
      requires me < |shm.clients|
      ensures Valid() && begun == shm && run == []
      ensures this.me == me && this.b == b && this.shm == shm && this.schedule == schedule
    {
      this.me, this.b, this.shm, this.schedule, begun, run := me, b, shm, schedule, shm, [];
    }

    /** Everybody has kept to the rules: it all began in a state of the invariant, no client has taken the mailbox with
        the id answered last, and recovery has not taken it from a live client. */
    ghost predicate Lawfully()
      requires Valid()
      reads this
    {
      Patient(b) && Inv(begun, b) && Lawful(begun, b, run)
    }

    /** The supervisor has decided on this very command after the first `from` ones. */
    ghost predicate DecidedSince(from: nat, want: Words, result: int)
      reads this
    {
      exists k :: from <= k < |shm.log| && shm.log[k].words == want
                  && result == Verdict(shm.log[k].panel, want.cmd, want.arg)
    }

    /** The supervisor has decided on this very command after the first `from` ones, whatever it decided. */
    ghost predicate ServedSince(from: nat, want: Words)
      reads this
    {
      exists k :: from <= k < |shm.log| && shm.log[k].words == want
    }

    /** One access, of this client or another. */
    method Do(a: Action)
      requires Valid() && Enabled(shm, b, a)
      modifies this`shm, this`run
      ensures shm == Apply(old(shm), b, a) && run == old(run) + [a]
      ensures |shm.clients| == |old(shm).clients| && Valid()
      ensures Lawfully() ==> old(Lawfully())
    {
      hide Runs, After, Polite, Spares, Inv, Patient;
      ghost var longer, end := Then(begun, b, run, a);
      shm, run := Apply(shm, b, a), longer;
    }

    /** The others get to run: they make those of the scheduled moves that they can make. */
    method Interfere()
      requires Valid()
      modifies this`shm, this`schedule, this`run
      ensures Valid() && shm.clients[me] == old(shm).clients[me] && old(shm).log <= shm.log
      ensures old(shm).now <= shm.now && schedule == if old(schedule) == [] then [] else old(schedule)[1..]
      ensures old(run) <= run
    {
      if schedule == [] {
        return;
      }
      var moves := schedule[0];
      schedule := schedule[1..];
      for k := 0 to |moves|
        invariant Valid() && shm.clients[me] == old(shm).clients[me] && old(shm).log <= shm.log
        invariant old(shm).now <= shm.now && schedule == old(schedule)[1..] && old(run) <= run
      {
        var a := moves[k];
        if Enabled(shm, b, a) && !Mine(a, me) {
          OthersMove(shm, b, a, me);
          Do(a);
        }
      }
    }

    /** Takes the mailbox, unless it stays busy for too long. */
    method Lock(want: Words, patience: nat) returns (taken: bool)
      requires Valid() && (shm.clients[me].Out? || shm.clients[me].Done?)
      modifies this`shm, this`schedule, this`run
      ensures Valid() && old(shm).log <= shm.log && old(run) <= run
      ensures !taken ==> shm.clients[me] == old(shm).clients[me]
      ensures taken ==> shm.clients[me] == Holding(Hold(want, shm.now, |shm.log|), Writing(0))
    {
      Interfere();
      var k := 0;
      while k < patience && shm.lock == 0
        invariant Valid() && shm.clients[me] == old(shm).clients[me] && old(shm).log <= shm.log && old(run) <= run
      {
        Interfere();
        k := k + 1;
      }
      taken := shm.lock > 0;
      if taken {
        Do(Take(me, want));
      }
    }

    /** Writes the command, field by field, the id last, and posts it. */
    method Submit(ghost h: Hold)
      requires Valid() && shm.clients[me] == Holding(h, Writing(0))
      modifies this`shm, this`schedule, this`run
      ensures Valid() && shm.clients[me] == Holding(h, Polling(shm.now))
      ensures old(shm).log <= shm.log && old(run) <= run
    {
      for n := 0 to 4
        invariant Valid() && shm.clients[me] == Holding(h, Writing(n)) && old(shm).log <= shm.log && old(run) <= run
      {
        Interfere();
        Do(Write(me));
      }
      Interfere();
      Do(Post(me));
    }

    /** Sleeps for a millisecond, or longer. */
    method Sleep() returns (awake: bool)
      requires Valid()
      modifies this`shm, this`schedule, this`run
      ensures Valid() && shm.clients[me] == old(shm).clients[me] && old(shm).log <= shm.log && old(run) <= run
      ensures awake ==> shm.now >= old(shm).now + 1
    {
      var until := shm.now + 1;
      while shm.now < until && schedule != []
        invariant Valid() && shm.clients[me] == old(shm).clients[me] && old(shm).log <= shm.log && old(run) <= run
        decreases |schedule|
      {
        Interfere();
      }
      awake := shm.now >= until;
    }

    /** Looks for the answer and takes it. */
    method Look(ghost h: Hold, ghost posted: nat) returns (answer: Option<int>)
      requires Valid() && shm.clients[me] == Holding(h, Polling(posted))
      modifies this`shm, this`schedule, this`run
      ensures Valid() && old(shm).log <= shm.log && old(shm).now <= shm.now && old(run) <= run
      ensures shm.clients[me] == if answer.Some? then Done(h.want, h.mark, answer.value) else Holding(h, Polling(posted))
    {
      hide Runs, After;
      answer := None;
      Interfere();
      Do(Poll(me));
      if shm.clients[me].stage == Matched {
        Interfere();
        Do(Fetch(me));
        var result := shm.clients[me].stage.result;
        Interfere();
        Do(Release(me));
        answer := Some(result);
      }
    }

    /** Polls for the answer until it is there or the client gives up. */
    method AwaitAnswer(ghost h: Hold, ghost posted: nat) returns (r: Outcome)
      requires Valid() && shm.clients[me] == Holding(h, Polling(posted)) && shm.now >= posted && b.patience <= POLLS
      modifies this`shm, this`schedule, this`run
      ensures Valid() && old(shm).log <= shm.log && old(run) <= run && !r.Busy?
      ensures r.Answer? ==> shm.clients[me] == Done(h.want, h.mark, r.result)
      ensures r.Asleep? ==> shm.clients[me] == Holding(h, Polling(posted))
      ensures r.NoAnswer? ==>
                shm.clients[me] == Out && (Lawfully() ==> h.mark < |shm.log| && shm.log[h.mark].words == h.want)
    {
      for k := 0 to POLLS
        invariant Valid() && shm.clients[me] == Holding(h, Polling(posted)) && shm.now >= posted + k
        invariant old(shm).log <= shm.log && old(run) <= run
      {
        var answer := Look(h, posted);
        if answer.Some? {
          return Answer(answer.value);
        }
        var awake := Sleep();
        if !awake {
          return Asleep;
        }
      }
      ghost var lawful := Lawfully();
      if lawful {
        RunKeepsInv(begun, b, run);
        GiveUpIsLate(shm, b, me);
      }
      Do(GiveUp(me));
      r := NoAnswer;
    }

    /** Sends a command and waits for the answer. Everything that happens meanwhile is a run of the machine. If it is
        a lawful one, an answer is the supervisor's decision on exactly this command, made after the call; a client
        that gives up leaves the mailbox in order too, for by then its command has been decided on. */
    method SendCmd(id0: int, cmd: U32, arg: int, pid: int, patience: nat) returns (r: Outcome)
      requires Valid() && (shm.clients[me].Out? || shm.clients[me].Done?) && b.patience <= POLLS
      modifies this`shm, this`schedule, this`run
      ensures Valid() && old(run) <= run && (shm.clients[me].Holding? <==> r.Asleep?)
      ensures Lawfully() ==> Inv(shm, b)
      ensures Lawfully() && r.Answer? ==> DecidedSince(|old(shm).log|, Request(id0, cmd, arg, pid), r.result)
      ensures Lawfully() && r.NoAnswer? ==> ServedSince(|old(shm).log|, Request(id0, cmd, arg, pid))
    {
      var want := Request(id0, cmd, arg, pid);
      var taken := Lock(want, patience);
      r := Busy;
      if taken {
        ghost var h := shm.clients[me].h;
        Submit(h);
        r := AwaitAnswer(h, shm.now);
      }
      if Lawfully() {
        RunKeepsInv(begun, b, run);
        if r.Answer? {
          AnsweredIsDecided(shm, b, me);
        }
      }
    }
  }

  lemma AnsweredIsDecided(s: State, b: Bounds, i: nat)
    requires Inv(s, b) && i < |s.clients| && s.clients[i].Done?
    ensures var c := s.clients[i];
            && c.mark < |s.log| && s.log[c.mark].words == c.want
            && c.result == Verdict(s.log[c.mark].panel, c.want.cmd, c.want.arg)
  {
    assert DoneInv(s.clients[i], s.log);
  }
}
