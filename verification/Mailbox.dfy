/** The command mailbox between any number of clients and the supervisor, as a state machine whose
    steps are single accesses to the shared words and semaphores. Clients may die at any step. */
module Mailbox {
  import opened Bytes
  import opened Modes

  /** The words of a command, written and copied one at a time. */
  datatype Words = Words(id: int, cmd: U32, arg: int, pid: int)

  datatype Field = Cmd | Arg | Pid | Id

  const NO_COMMAND := Words(0, 0, 0, 0)

  function CopyField(dst: Words, src: Words, f: Field): Words {
    match f
    case Id => dst.(id := src.id)
    case Cmd => dst.(cmd := src.cmd)
    case Arg => dst.(arg := src.arg)
    case Pid => dst.(pid := src.pid)
  }

  /** The client writes command, argument, pid and, last, the id. */
  function FieldAt(n: nat): Field {
    if n == 0 then Cmd else if n == 1 then Arg else if n == 2 then Pid else Id
  }

  /** A client's hold on the mailbox: its command, when it took the lock and, for the proofs, how many
      commands had been served by then. */
  datatype Hold = Hold(want: Words, since: nat, mark: nat)

  /** Where a client is in `send_cmd` while it has the lock; `posted` is when it posted its command. */
  datatype Stage = Writing(n: nat) | Polling(posted: nat) | Matched | Got(result: int)

  datatype Client = Out | Holding(h: Hold, stage: Stage) | Done(want: Words, mark: nat, result: int) | Dead

  /** Where the supervisor is in serving the mailbox. */
  datatype Server =
    | Waiting
    | Copying(todo: set<Field>, buf: Words)
    | Decided(buf: Words, result: int)
    | Answered(buf: Words, result: int)

  /** Who has the mailbox, for the proofs: nobody, a live client, or one that died with it. */
  datatype Owner = Free | Held(i: nat) | Orphaned(h: Hold, stage: Stage, diedAt: nat)

  /** A command that was served, with the panel it was decided on and the answer. */
  datatype Service = Service(words: Words, panel: Panel, result: int)

  /** `point` is when the supervisor last finished a pass over the mailbox; `asked` lists the commands
      posted, `log` the commands served. */
  datatype State = State(
    now: nat, lock: nat, ready: nat, cmd: Words, ackId: int, ackResult: int,
    panel: Panel, server: Server, lockZeroSince: int, clients: seq<Client>,
    point: nat, owner: Owner, asked: seq<Words>, log: seq<Service>)

  datatype Action =
    | Take(i: nat, want: Words) | Write(i: nat) | Post(i: nat) | Poll(i: nat) | Fetch(i: nat) | Release(i: nat)
    | GiveUp(i: nat) | Die(i: nat)
    | Wake | Copy(f: Field) | Serve | AckResult | AckId
    | Idle | Checks(panel: Panel) | Pass(d: nat)

  /** `hold` bounds how long a live client keeps the mailbox, `gap` how long the supervisor takes from
      one pass to the next, and no client gives up sooner than `patience` after posting its command; in
      milliseconds. */
  datatype Bounds = Bounds(hold: nat, gap: nat, patience: nat)

  function Init(clients: nat, panel: Panel): State {
    State(0, 1, 0, NO_COMMAND, 0, 0, panel, Waiting, -1, seq(clients, _ => Out), 0, Free, [], [])
  }

  predicate At(s: State, i: nat, stage: Stage) {
    i < |s.clients| && s.clients[i].Holding? && s.clients[i].stage == stage
  }

  predicate Enabled(s: State, b: Bounds, a: Action) {
    match a
    case Take(i, want) => i < |s.clients| && (s.clients[i].Out? || s.clients[i].Done?) && s.lock > 0
    case Write(i) =>
      i < |s.clients| && s.clients[i].Holding? && s.clients[i].stage.Writing? && s.clients[i].stage.n < 4
    case Post(i) => At(s, i, Writing(4))
    case Poll(i) => i < |s.clients| && s.clients[i].Holding? && s.clients[i].stage.Polling?
    case Fetch(i) => At(s, i, Matched)
    case Release(i) => i < |s.clients| && s.clients[i].Holding? && s.clients[i].stage.Got?
    case GiveUp(i) =>
      && i < |s.clients| && s.clients[i].Holding? && s.clients[i].stage.Polling?
      && s.now >= s.clients[i].stage.posted + b.patience
    case Die(i) => i < |s.clients| && !s.clients[i].Dead?
    case Wake => s.server.Waiting? && s.ready > 0
    case Copy(f) => s.server.Copying? && f in s.server.todo
    case Serve => s.server.Copying? && s.server.todo == {}
    case AckResult => s.server.Decided?
    case AckId => s.server.Answered?
    case Idle => s.server.Waiting? && s.ready == 0
    case Checks(_) => s.server.Waiting?
    case Pass(d) =>
      && s.now + d <= s.point + b.gap
      && forall i :: 0 <= i < |s.clients| && s.clients[i].Holding? ==> s.now + d <= s.clients[i].h.since + b.hold
  }

  function Stay(s: State, i: nat, stage: Stage): seq<Client>
    requires i < |s.clients| && s.clients[i].Holding?
  {
    s.clients[i := s.clients[i].(stage := stage)]
  }

  function Apply(s: State, b: Bounds, a: Action): State
    requires Enabled(s, b, a)
  {
    match a
    case Take(i, want) =>
      s.(lock := s.lock - 1, owner := Held(i),
         clients := s.clients[i := Holding(Hold(want, s.now, |s.log|), Writing(0))])
    case Write(i) =>
      var n := s.clients[i].stage.n;
      s.(cmd := CopyField(s.cmd, s.clients[i].h.want, FieldAt(n)), clients := Stay(s, i, Writing(n + 1)))
    case Post(i) =>
      s.(ready := s.ready + 1, asked := s.asked + [s.clients[i].h.want], clients := Stay(s, i, Polling(s.now)))
    case Poll(i) => if s.ackId == s.clients[i].h.want.id then s.(clients := Stay(s, i, Matched)) else s
    case Fetch(i) => s.(clients := Stay(s, i, Got(s.ackResult)))
    case Release(i) =>
      var c := s.clients[i];
      s.(lock := s.lock + 1, owner := Free, clients := s.clients[i := Done(c.h.want, c.h.mark, c.stage.result)])
    case GiveUp(i) => s.(lock := s.lock + 1, owner := Free, clients := s.clients[i := Out])
    case Die(i) =>
      var c := s.clients[i];
      s.(clients := s.clients[i := Dead],
         owner := if s.owner == Held(i) && c.Holding? then Orphaned(c.h, c.stage, s.now) else s.owner)
    case Wake => s.(ready := s.ready - 1, server := Copying({Id, Cmd, Arg, Pid}, NO_COMMAND))
    case Copy(f) => s.(server := Copying(s.server.todo - {f}, CopyField(s.server.buf, s.cmd, f)))
    case Serve =>
      var w := s.server.buf;
      var r := Verdict(s.panel, w.cmd, w.arg);
      s.(panel := Served(s.panel, w.cmd, w.arg), server := Decided(w, r), log := s.log + [Service(w, s.panel, r)])
    case AckResult => s.(ackResult := s.server.result, server := Answered(s.server.buf, s.server.result))
    case AckId => s.(ackId := s.server.buf.id, server := Waiting, lockZeroSince := -1, point := s.now)
    case Idle =>
      var (since, posts) := LockTimer(s.lockZeroSince, s.lock, s.now);
      s.(lock := if posts then s.lock + 1 else s.lock, lockZeroSince := since, point := s.now,
         owner := if posts then Free else s.owner)
    case Checks(panel) => s.(panel := panel)
    case Pass(d) => s.(now := s.now + d)
  }

  predicate Runs(s: State, b: Bounds, run: seq<Action>)
    decreases |run|
  {
    run == [] || (Enabled(s, b, run[0]) && Runs(Apply(s, b, run[0]), b, run[1..]))
  }

  function After(s: State, b: Bounds, run: seq<Action>): State
    requires Runs(s, b, run)
    decreases |run|
  {
    if run == [] then s else After(Apply(s, b, run[0]), b, run[1..])
  }

  /** A client that keeps to the protocol: its id is not the one that was answered last. */
  predicate PoliteStep(s: State, a: Action) {
    a.Take? ==> a.want.id != s.ackId
  }

  predicate Polite(s: State, b: Bounds, run: seq<Action>)
    requires Runs(s, b, run)
    decreases |run|
  {
    run == [] || (PoliteStep(s, run[0]) && Polite(Apply(s, b, run[0]), b, run[1..]))
  }

  /** Recovery posts the lock while a live client has it. */
  predicate Steals(s: State, a: Action) {
    a.Idle? && s.owner.Held? && LockTimer(s.lockZeroSince, s.lock, s.now).1
  }

  /** A run in which it never does. */
  predicate Spares(s: State, b: Bounds, run: seq<Action>)
    requires Runs(s, b, run)
    decreases |run|
  {
    run == [] || (!Steals(s, run[0]) && Spares(Apply(s, b, run[0]), b, run[1..]))
  }

  /** Clients keep to the protocol and recovery spares the living. */
  predicate Lawful(s: State, b: Bounds, run: seq<Action>) {
    Runs(s, b, run) && Polite(s, b, run) && Spares(s, b, run)
  }

  // --------------------------------------------------------------- invariant

  /** The lock counts whoever has the mailbox. */
  ghost predicate OwnerInv(lock: nat, owner: Owner, clients: seq<Client>) {
    && lock == (if owner.Free? then 1 else 0)
    && (owner.Held? ==> owner.i < |clients|)
    && forall i :: 0 <= i < |clients| ==> (clients[i].Holding? <==> owner == Held(i))
  }

  const NO_HOLD := Hold(NO_COMMAND, 0, 0)

  /** The hold on the mailbox, and how far it has come, of whoever has it, dead or alive. */
  function HoldOf(s: State): Hold {
    if s.owner.Orphaned? then s.owner.h
    else if s.owner.Held? && s.owner.i < |s.clients| && s.clients[s.owner.i].Holding? then s.clients[s.owner.i].h
    else NO_HOLD
  }

  function StageOf(s: State): Stage {
    if s.owner.Orphaned? then s.owner.stage
    else if s.owner.Held? && s.owner.i < |s.clients| && s.clients[s.owner.i].Holding? then s.clients[s.owner.i].stage
    else Matched
  }

  /** The first `n` fields, in the client's order, have been written. */
  predicate Written(cmd: Words, want: Words, n: nat) {
    && n <= 4
    && (n > 0 ==> cmd.cmd == want.cmd)
    && (n > 1 ==> cmd.arg == want.arg)
    && (n > 2 ==> cmd.pid == want.pid)
    && (n > 3 ==> cmd.id == want.id)
  }

  predicate CopiedSoFar(buf: Words, cmd: Words, todo: set<Field>) {
    && (Id !in todo ==> buf.id == cmd.id)
    && (Cmd !in todo ==> buf.cmd == cmd.cmd)
    && (Arg !in todo ==> buf.arg == cmd.arg)
    && (Pid !in todo ==> buf.pid == cmd.pid)
  }

  /** A command has been posted and not yet answered. */
  predicate Pending(s: State) {
    s.ready > 0 || !s.server.Waiting?
  }

  predicate Asked(h: Hold, asked: seq<Words>) {
    |asked| == h.mark + 1 && asked[h.mark] == h.want
  }

  predicate AnsweredBy(h: Hold, log: seq<Service>, result: int) {
    |log| == h.mark + 1 && log[h.mark].words == h.want && log[h.mark].result == result
  }

  /** How far the supervisor has come with a command it has taken. */
  ghost predicate ServerInv(h: Hold, server: Server, cmd: Words, ackResult: int, log: seq<Service>) {
    match server
    case Waiting => |log| == h.mark
    case Copying(todo, buf) => |log| == h.mark && CopiedSoFar(buf, cmd, todo)
    case Decided(buf, r) => buf == h.want && AnsweredBy(h, log, r)
    case Answered(buf, r) => buf == h.want && AnsweredBy(h, log, r) && ackResult == r
  }

  /** How far the command of the client that has the mailbox has come. */
  ghost predicate CommandInv(h: Hold, stage: Stage, s: State) {
    match stage
    case Writing(n) =>
      && Written(s.cmd, h.want, n) && !Pending(s) && s.ackId != h.want.id && |s.asked| == |s.log| == h.mark
    case Polling(_) =>
      && s.cmd == h.want && Asked(h, s.asked)
      && (if Pending(s) then
            s.ackId != h.want.id && s.ready == (if s.server.Waiting? then 1 else 0)
            && ServerInv(h, s.server, s.cmd, s.ackResult, s.log)
          else s.ackId == h.want.id && AnsweredBy(h, s.log, s.ackResult))
    case Matched => !Pending(s) && Asked(h, s.asked) && s.ackId == h.want.id && AnsweredBy(h, s.log, s.ackResult)
    case Got(r) => !Pending(s) && Asked(h, s.asked) && s.ackId == h.want.id && AnsweredBy(h, s.log, r)
  }

  /** What was asked was served, whole, in order and once; the answer is the one to those words. */
  ghost predicate LogInv(asked: seq<Words>, log: seq<Service>) {
    && |log| <= |asked|
    && forall k :: 0 <= k < |log| ==>
         log[k].words == asked[k] && log[k].result == Verdict(log[k].panel, log[k].words.cmd, log[k].words.arg)
  }

  ghost predicate DoneInv(c: Client, log: seq<Service>) {
    c.Done? ==> c.mark < |log| && log[c.mark].words == c.want && log[c.mark].result == c.result
  }

  /** When the supervisor last looked, compared with when the mailbox was taken and the command was posted. */
  ghost predicate TimeInv(s: State, b: Bounds) {
    var h := HoldOf(s);
    && s.point <= s.now <= s.point + b.gap && -1 <= s.lockZeroSince <= s.point
    && (s.lockZeroSince >= 0 ==> s.point <= s.lockZeroSince + LOCK_STUCK_MS)
    && (!s.owner.Free? ==> h.since <= s.now)
    && (s.owner.Held? ==> s.now <= h.since + b.hold)
    && (s.owner.Held? && StageOf(s).Polling? ==>
          h.since <= StageOf(s).posted && (Pending(s) ==> s.point <= StageOf(s).posted))
  }

  /** How long it can be since the client that had the mailbox died. */
  ghost predicate OrphanInv(s: State, b: Bounds, diedAt: nat) {
    if Pending(s) then s.point <= diedAt
    else if s.lockZeroSince < 0 then s.point <= diedAt + b.gap
    else s.lockZeroSince <= diedAt + 2 * b.gap
  }

  ghost predicate Inv(s: State, b: Bounds) {
    && OwnerInv(s.lock, s.owner, s.clients)
    && LogInv(s.asked, s.log)
    && (forall i :: 0 <= i < |s.clients| ==> DoneInv(s.clients[i], s.log))
    && (if s.owner.Free? then !Pending(s) && |s.asked| == |s.log| else CommandInv(HoldOf(s), StageOf(s), s))
    && TimeInv(s, b)
    && (s.owner.Orphaned? ==> OrphanInv(s, b, s.owner.diedAt))
  }

  /** A client that gives up has been answered by then, or never holds on for that long. */
  predicate Patient(b: Bounds) {
    b.gap < b.patience || b.hold < b.patience
  }

  predicate ClientAction(a: Action) {
    a.Take? || a.Write? || a.Post? || a.Poll? || a.Fetch? || a.Release? || a.GiveUp? || a.Die?
  }

  lemma ClientKeepsInv(s: State, b: Bounds, a: Action)
    requires Patient(b) && Inv(s, b) && Enabled(s, b, a) && PoliteStep(s, a) && ClientAction(a)
    ensures Inv(Apply(s, b, a), b)
  {
  }

  lemma ServerKeepsInv(s: State, b: Bounds, a: Action)
    requires Inv(s, b) && Enabled(s, b, a) && !ClientAction(a) && !Steals(s, a)
    ensures Inv(Apply(s, b, a), b)
  {
  }

  lemma {:induction false} RunKeepsInv(s: State, b: Bounds, run: seq<Action>)
    requires Patient(b) && Inv(s, b) && Lawful(s, b, run)
    ensures Inv(After(s, b, run), b)
    decreases |run|
  {
    if run != [] {
      if ClientAction(run[0]) {
        ClientKeepsInv(s, b, run[0]);
      } else {
        ServerKeepsInv(s, b, run[0]);
      }
      RunKeepsInv(Apply(s, b, run[0]), b, run[1..]);
    }
  }

  // ---------------------------------------------------------------- theorems

  /** The live clients that are between taking the lock and posting it. */
  function Holders(clients: seq<Client>): nat {
    if clients == [] then 0 else Holders(clients[..|clients| - 1]) + if clients[|clients| - 1].Holding? then 1 else 0
  }

  lemma {:induction false} CountHolders(clients: seq<Client>, owner: Owner)
    requires forall i :: 0 <= i < |clients| && clients[i].Holding? ==> owner == Held(i)
    ensures Holders(clients) == if exists i :: 0 <= i < |clients| && clients[i].Holding? then 1 else 0
  {
    if clients != [] {
      var n := |clients| - 1;
      CountHolders(clients[..n], owner);
      if clients[n].Holding? {
        assert forall i :: 0 <= i < n ==> !clients[..n][i].Holding?;
      } else if i :| 0 <= i < |clients| && clients[i].Holding? {
        assert clients[..n][i].Holding?;
      }
    }
  }

  /** What `MailboxIsSafe` promises of a state. */
  ghost predicate Sound(s: State) {
    && s.lock + Holders(s.clients) + (if s.owner.Orphaned? then 1 else 0) == 1
    && s.ready <= 1 && |s.log| <= |s.asked| <= |s.log| + 1
    && (forall k :: 0 <= k < |s.log| ==>
          && s.log[k].words == s.asked[k]
          && s.log[k].result == Verdict(s.log[k].panel, s.asked[k].cmd, s.asked[k].arg))
    && (forall i :: 0 <= i < |s.clients| && s.clients[i].Done? ==> Rightly(s.clients[i], s))
  }

  /** A client's result is the answer to its own command. */
  ghost predicate Rightly(c: Client, s: State) {
    c.Done? ==>
      && c.mark < |s.log| && c.mark < |s.asked| && s.asked[c.mark] == c.want
      && c.result == Verdict(s.log[c.mark].panel, c.want.cmd, c.want.arg)
  }

  /** In every run of clients that keep to the protocol, however they interleave, wherever they die and whenever they
      give up, as long as recovery spares the living: lock count plus
      live holders plus a dead holder is always 1; READY is posted at most once per hold; the supervisor
      has served exactly the commands that were posted, whole, each once and in order, and decided
      each on its own words; and every client's result is the answer to its own command. */
  lemma MailboxIsSafe(clients: nat, panel: Panel, b: Bounds, run: seq<Action>)
    requires Patient(b) && Lawful(Init(clients, panel), b, run)
    ensures Sound(After(Init(clients, panel), b, run))
  {
    var s := After(Init(clients, panel), b, run);
    RunKeepsInv(Init(clients, panel), b, run);
    CountHolders(s.clients, s.owner);
    if s.owner.Held? {
      assert s.clients[s.owner.i].Holding?;
    }
    forall i | 0 <= i < |s.clients| && s.clients[i].Done? ensures Rightly(s.clients[i], s) {
      assert DoneInv(s.clients[i], s.log);
    }
  }

  /** In each such run a client that dies with the mailbox is relieved of it no later than three passes of the
      supervisor after 2 s from its death. */
  lemma DeadAreRelieved(clients: nat, panel: Panel, b: Bounds, run: seq<Action>)
    requires Patient(b) && Lawful(Init(clients, panel), b, run)
    ensures var s := After(Init(clients, panel), b, run);
            s.owner.Orphaned? ==> s.now <= s.owner.diedAt + LOCK_STUCK_MS + 3 * b.gap
  {
    RunKeepsInv(Init(clients, panel), b, run);
  }

  // ---------------------------------------------------------------- recovery

  /** The recovery time leaves room for the end of one hold, a pass of the supervisor, and another hold. */
  predicate Roomy(b: Bounds) {
    2 * b.hold + b.gap <= LOCK_STUCK_MS
  }

  /** The timer, with nothing posted and nothing being served: it runs since the end of one hold at most, or since
      the hold before one that has not posted anything. Whether clients keep to the protocol does not matter. */
  ghost predicate Timed(s: State, b: Bounds) {
    && OwnerInv(s.lock, s.owner, s.clients)
    && s.point <= s.now <= s.point + b.gap && s.lockZeroSince <= s.point
    && (s.owner.Held? ==> var h := s.clients[s.owner.i].h; h.since <= s.now <= h.since + b.hold)
    && (s.lockZeroSince >= 0 && !Pending(s) && s.owner.Free? ==> s.point <= s.lockZeroSince + b.hold)
    && (s.lockZeroSince >= 0 && !Pending(s) && s.owner.Held? ==>
          var c := s.clients[s.owner.i];
          c.h.since <= s.lockZeroSince || (c.h.since <= s.lockZeroSince + b.hold + b.gap && c.stage.Writing?))
  }

  lemma TimerSpares(s: State, b: Bounds, a: Action)
    requires Roomy(b) && Timed(s, b) && Enabled(s, b, a)
    ensures !Steals(s, a) && Timed(Apply(s, b, a), b)
  {
  }

  /** With that room recovery never strikes a live client, whatever the clients do. */
  lemma {:induction false} RoomSpares(s: State, b: Bounds, run: seq<Action>)
    requires Roomy(b) && Timed(s, b) && Runs(s, b, run)
    ensures Spares(s, b, run) && Timed(After(s, b, run), b)
    decreases |run|
  {
    if run != [] {
      TimerSpares(s, b, run[0]);
      RoomSpares(Apply(s, b, run[0]), b, run[1..]);
    }
  }

  /** It releases the lock only of a client that is dead; and of each one that died, if the others keep to the
      protocol and are patient, no later than three passes of the supervisor after 2 s from its death. */
  lemma RecoveryIsForTheDead(clients: nat, panel: Panel, b: Bounds, run: seq<Action>)
    requires Roomy(b) && Runs(Init(clients, panel), b, run)
    ensures var s := After(Init(clients, panel), b, run);
            && (Enabled(s, b, Idle) && Apply(s, b, Idle).lock > s.lock ==> s.owner.Orphaned?)
            && (Patient(b) && Polite(Init(clients, panel), b, run) && s.owner.Orphaned? ==>
                  s.now <= s.owner.diedAt + LOCK_STUCK_MS + 3 * b.gap)
  {
    RoomSpares(Init(clients, panel), b, run);
    var s := After(Init(clients, panel), b, run);
    if Enabled(s, b, Idle) {
      TimerSpares(s, b, Idle);
    }
    if Patient(b) && Polite(Init(clients, panel), b, run) {
      DeadAreRelieved(clients, panel, b, run);
    }
  }

  // ------------------------------------------------- each proviso is needed

  lemma {:induction false} Append(s: State, b: Bounds, p: seq<Action>, q: seq<Action>)
    requires Runs(s, b, p) && Runs(After(s, b, p), b, q)
    ensures Runs(s, b, p + q) && After(s, b, p + q) == After(After(s, b, p), b, q)
    ensures Polite(s, b, p) && Polite(After(s, b, p), b, q) <==> Polite(s, b, p + q)
    ensures Spares(s, b, p) && Spares(After(s, b, p), b, q) <==> Spares(s, b, p + q)
    decreases |p|
  {
    if p == [] {
      assert p + q == q;
    } else {
      Append(Apply(s, b, p[0]), b, p[1..], q);
      assert (p + q)[1..] == p[1..] + q;
    }
  }

  lemma Nothing(s: State, b: Bounds)
    ensures Lawful(s, b, []) && After(s, b, []) == s
  {
  }

  /** One more step at the end of a run. */
  lemma Then(s: State, b: Bounds, run: seq<Action>, a: Action) returns (longer: seq<Action>, end: State)
    requires Runs(s, b, run) && Enabled(After(s, b, run), b, a)
    ensures longer == run + [a] && Runs(s, b, longer) && end == After(s, b, longer) == Apply(After(s, b, run), b, a)
    ensures Polite(s, b, run) && PoliteStep(After(s, b, run), a) <==> Polite(s, b, longer)
    ensures Spares(s, b, run) && !Steals(After(s, b, run), a) <==> Spares(s, b, longer)
  {
    var t := After(s, b, run);
    assert Runs(Apply(t, b, a), b, []) && [a][1..] == [];
    assert Runs(t, b, [a]) && After(t, b, [a]) == Apply(t, b, a);
    assert PoliteStep(t, a) <==> Polite(t, b, [a]);
    assert !Steals(t, a) <==> Spares(t, b, [a]);
    Append(s, b, run, [a]);
    longer, end := run + [a], Apply(t, b, a);
  }

  /** A client that has taken the mailbox writes its command and posts it. */
  lemma SubmitRun(s: State, b: Bounds, i: nat) returns (run: seq<Action>, end: State)
    requires At(s, i, Writing(0))
    ensures Lawful(s, b, run)
    ensures var h := s.clients[i].h;
            end == After(s, b, run) ==
            s.(cmd := h.want, ready := s.ready + 1, asked := s.asked + [h.want],
               clients := s.clients[i := Holding(h, Polling(s.now))])
  {
    hide Runs, After, Polite, Spares;
    Nothing(s, b);
    run, end := Then(s, b, [], Write(i));
    run, end := Then(s, b, run, Write(i));
    run, end := Then(s, b, run, Write(i));
    run, end := Then(s, b, run, Write(i));
    run, end := Then(s, b, run, Post(i));
  }

  /** A client takes the mailbox, writes its command and posts it. */
  lemma AskRun(s: State, b: Bounds, i: nat, want: Words) returns (run: seq<Action>, end: State)
    requires i < |s.clients| && s.clients[i].Out? && s.lock > 0
    ensures Runs(s, b, run) && Spares(s, b, run)
    ensures end == After(s, b, run) ==
            s.(lock := s.lock - 1, owner := Held(i), cmd := want, ready := s.ready + 1, asked := s.asked + [want],
               clients := s.clients[i := Holding(Hold(want, s.now, |s.log|), Polling(s.now))])
    ensures want.id != s.ackId ==> Polite(s, b, run)
  {
    hide Runs, After, Polite, Spares;
    Nothing(s, b);
    var take, taken := Then(s, b, [], Take(i, want));
    var more, last := SubmitRun(taken, b, i);
    Append(s, b, take, more);
    run, end := take + more, last;
  }

  /** The supervisor takes whatever is in the mailbox. */
  lemma WakeRun(s: State, b: Bounds) returns (run: seq<Action>, end: State)
    requires s.server.Waiting? && s.ready > 0
    ensures Lawful(s, b, run)
    ensures end == After(s, b, run) == s.(ready := s.ready - 1, server := Copying({}, s.cmd))
  {
    hide Runs, After, Polite, Spares;
    Nothing(s, b);
    run, end := Then(s, b, [], Wake);
    run, end := Then(s, b, run, Copy(Id));
    run, end := Then(s, b, run, Copy(Cmd));
    run, end := Then(s, b, run, Copy(Arg));
    run, end := Then(s, b, run, Copy(Pid));
    assert end.server.todo == {};
    assert end.server.buf == s.cmd;
  }

  /** It decides on it and answers. */
  lemma ServeRun(s: State, b: Bounds) returns (run: seq<Action>, end: State)
    requires s.server.Waiting? && s.ready > 0
    ensures Lawful(s, b, run)
    ensures var r := Verdict(s.panel, s.cmd.cmd, s.cmd.arg);
            end == After(s, b, run) ==
            s.(ready := s.ready - 1, panel := Served(s.panel, s.cmd.cmd, s.cmd.arg),
               log := s.log + [Service(s.cmd, s.panel, r)],
               ackResult := r, ackId := s.cmd.id, lockZeroSince := -1, point := s.now)
  {
    hide Runs, After, Polite, Spares;
    run, end := WakeRun(s, b);
    run, end := Then(s, b, run, Serve);
    run, end := Then(s, b, run, AckResult);
    run, end := Then(s, b, run, AckId);
  }

  /** A client collects the answer to its id and releases the mailbox. */
  lemma CollectRun(s: State, b: Bounds, i: nat) returns (run: seq<Action>, end: State)
    requires Enabled(s, b, Poll(i)) && s.ackId == s.clients[i].h.want.id
    ensures Lawful(s, b, run)
    ensures end == After(s, b, run) ==
            s.(lock := s.lock + 1, owner := Free,
               clients := s.clients[i := Done(s.clients[i].h.want, s.clients[i].h.mark, s.ackResult)])
  {
    hide Runs, After, Polite, Spares;
    Nothing(s, b);
    run, end := Then(s, b, [], Poll(i));
    run, end := Then(s, b, run, Fetch(i));
    run, end := Then(s, b, run, Release(i));
  }

  /** A client that gives up on a slow supervisor leaves READY posted: the supervisor then serves a command
      that nobody has asked, half of it the next client's and half the last one's. */
  lemma GivingUpBreaksIt(panel: Panel, b: Bounds) returns (run: seq<Action>)
    requires !Patient(b)
    ensures Lawful(Init(2, panel), b, run)
    ensures var s := After(Init(2, panel), b, run); |s.log| == 1 && s.log[0].words !in s.asked
  {
    hide Runs, After, Polite, Spares;
    var s, hold, reset := Init(2, panel), Words(1, CMD_SET_MODE, HOLD, 11), Words(2, CMD_RESET, 0, 22);
    var end;
    run, end := AskRun(s, b, 0, hold);
    run, end := Then(s, b, run, Pass(b.patience));
    run, end := Then(s, b, run, GiveUp(0));
    run, end := Then(s, b, run, Take(1, reset));
    run, end := Then(s, b, run, Write(1));
    var serve, last := ServeRun(end, b);
    Append(s, b, run, serve);
    run := run + serve;
    assert last.log[0].words == Words(1, CMD_RESET, HOLD, 11);
  }

  // ------------------------------------------------------------------- ids

  /** A client whose id is the one answered last takes the answer to somebody else's command. */
  lemma RepeatedIdBreaksIt(panel: Panel, b: Bounds) returns (run: seq<Action>)
    ensures Runs(Init(2, panel), b, run) && Spares(Init(2, panel), b, run)
    ensures var s := After(Init(2, panel), b, run);
            |s.clients| == 2 && s.clients[1].Done? && s.clients[1].mark == |s.log| < |s.asked|
  {
    hide Runs, After, Polite, Spares;
    var s, ping, reset := Init(2, panel), Words(1, CMD_PING, 0, 11), Words(1, CMD_RESET, 0, 22);
    var end;
    run, end := AskRun(s, b, 0, ping);
    var more, next := ServeRun(end, b);
    Append(s, b, run, more);
    run := run + more;
    more, end := CollectRun(next, b, 0);
    Append(s, b, run, more);
    run := run + more;
    more, next := AskRun(end, b, 1, reset);
    Append(s, b, run, more);
    run := run + more;
    more, end := CollectRun(next, b, 1);
    Append(s, b, run, more);
    run := run + more;
  }

  /** Client `i`, which took the mailbox for `want` when `mark` commands had been served, has found an answer
      although its command has not been served. */
  predicate Stale(s: State, i: nat, want: Words, mark: nat) {
    && i < |s.clients|
    && !(mark < |s.log| && s.log[mark].words == want)
    && var c := s.clients[i];
    (c.Holding? && c.h.want == want && c.h.mark == mark && (c.stage.Matched? || c.stage.Got?))
    || (c.Done? && c.want == want && c.mark == mark)
  }

  /** At any state that has been reached, taking the mailbox with an id is safe if and only if that id is not
      the one answered last. */
  lemma FreshIdIff(s: State, b: Bounds, i: nat, want: Words)
    requires Patient(b) && Inv(s, b) && Enabled(s, b, Take(i, want))
    ensures want.id != s.ackId <==>
            forall run :: Lawful(Apply(s, b, Take(i, want)), b, run) ==>
              !Stale(After(Apply(s, b, Take(i, want)), b, run), i, want, |s.log|)
  {
    var t := Apply(s, b, Take(i, want));
    if want.id != s.ackId {
      ClientKeepsInv(s, b, Take(i, want));
      forall run | Lawful(t, b, run) ensures !Stale(After(t, b, run), i, want, |s.log|) {
        RunKeepsInv(t, b, run);
        if i < |After(t, b, run).clients| {
          AnsweredIsServed(After(t, b, run), b, i);
        }
      }
    } else {
      var run, end := SubmitRun(t, b, i);
      run, end := Then(t, b, run, Poll(i));
      assert Stale(end, i, want, |s.log|);
    }
  }

  /** Whoever has found an answer has been served. */
  lemma AnsweredIsServed(s: State, b: Bounds, i: nat)
    requires Inv(s, b) && i < |s.clients|
    ensures var c := s.clients[i];
            && (c.Holding? && (c.stage.Matched? || c.stage.Got?) ==> c.h.mark < |s.log| && s.log[c.h.mark].words == c.h.want)
            && (c.Done? ==> c.mark < |s.log| && s.log[c.mark].words == c.want)
  {
    assert DoneInv(s.clients[i], s.log);
  }

  /** So is whoever may give up. */
  lemma GiveUpIsLate(s: State, b: Bounds, i: nat)
    requires Patient(b) && Inv(s, b) && Enabled(s, b, GiveUp(i))
    ensures var h := s.clients[i].h;
            !Pending(s) && h.mark < |s.log| && s.log[h.mark].words == h.want
  {
  }

  /** The mailbox has been released under a live client. */
  ghost predicate Stolen(s: State) {
    s.lock > 0 && exists i :: 0 <= i < |s.clients| && s.clients[i].Holding?
  }

  /** The supervisor looks at the mailbox every millisecond until `t`, while somebody has it. */
  lemma {:induction false} IdleUntil(s: State, b: Bounds, t: nat) returns (run: seq<Action>, end: State)
    requires s.server.Waiting? && s.ready == 0 && s.lock == 0 && 0 <= s.lockZeroSince <= s.point == s.now <= t
    requires t <= s.lockZeroSince + LOCK_STUCK_MS && b.gap > 0
    requires forall i :: 0 <= i < |s.clients| && s.clients[i].Holding? ==> t <= s.clients[i].h.since + b.hold
    ensures Lawful(s, b, run) && end == After(s, b, run) == s.(now := t, point := t)
    decreases t - s.now
  {
    hide Runs, After, Polite, Spares;
    Nothing(s, b);
    run, end := [], s;
    if s.now < t {
      run, end := Then(s, b, run, Pass(1));
      run, end := Then(s, b, run, Idle);
      var more, last := IdleUntil(end, b, t);
      Append(s, b, run, more);
      run, end := run + more, last;
    }
  }

  /** A client is answered at once, and has not looked by `t`. */
  lemma AnsweredHold(panel: Panel, b: Bounds, t: nat) returns (run: seq<Action>, end: State)
    requires b.gap > 0 && t <= b.hold && t <= LOCK_STUCK_MS
    ensures Lawful(Init(2, panel), b, run) && end == After(Init(2, panel), b, run)
    ensures end.now == end.point == t && end.lock == 0 && end.ready == 0 && end.server.Waiting? && end.lockZeroSince == 0
    ensures end.ackId == 1 && |end.clients| == 2 && end.clients[1].Out?
    ensures end.clients[0] == Holding(Hold(Words(1, CMD_PING, 0, 11), 0, 0), Polling(0))
  {
    hide Runs, After, Polite, Spares;
    var s, ping := Init(2, panel), Words(1, CMD_PING, 0, 11);
    run, end := AskRun(s, b, 0, ping);
    var more, next := ServeRun(end, b);
    Append(s, b, run, more);
    run := run + more;
    run, end := Then(s, b, run, Idle);
    more, next := IdleUntil(end, b, t);
    Append(s, b, run, more);
    run, end := run + more, next;
  }

  /** The supervisor has just seen the lock taken when the answered client lets go of it at `t`. */
  lemma FirstHold(panel: Panel, b: Bounds, t: nat) returns (run: seq<Action>, end: State)
    requires b.gap > 0 && t <= b.hold && t <= LOCK_STUCK_MS
    ensures Lawful(Init(2, panel), b, run) && end == After(Init(2, panel), b, run)
    ensures end.now == end.point == t && end.lock == 1 && end.ready == 0 && end.server.Waiting? && end.lockZeroSince == 0
    ensures end.ackId == 1 && |end.clients| == 2 && end.clients[0].Done? && end.clients[1].Out?
  {
    hide Runs, After, Polite, Spares;
    var asked, next := AnsweredHold(panel, b, t);
    var more, last := CollectRun(next, b, 0);
    Append(Init(2, panel), b, asked, more);
    run, end := asked + more, last;
  }

  /** Without that room there is a run in which recovery takes the mailbox from a live client: the
      supervisor sees the lock taken early in one hold, never sees it free before the next, and adds the
      two up. */
  lemma RecoveryStrikesTheLiving(panel: Panel, b: Bounds) returns (run: seq<Action>)
    requires !Roomy(b) && b.gap > 0
    ensures Runs(Init(2, panel), b, run) && Polite(Init(2, panel), b, run) && !Spares(Init(2, panel), b, run)
    ensures Stolen(After(Init(2, panel), b, run))
  {
    hide Runs, After, Polite, Spares;
    var s, ping := Init(2, panel), Words(2, CMD_PING, 0, 22);
    var t := if b.hold <= LOCK_STUCK_MS then b.hold else LOCK_STUCK_MS;
    var end;
    run, end := FirstHold(panel, b, t);
    assert end.point == end.now;
    var d := if t + b.gap <= LOCK_STUCK_MS then b.gap else LOCK_STUCK_MS + 1 - t;
    run, end := Then(s, b, run, Pass(d));
    run, end := Then(s, b, run, Take(1, ping));
    run, end := Then(s, b, run, Idle);
    if t + d <= LOCK_STUCK_MS {
      var more, next := IdleUntil(end, b, LOCK_STUCK_MS);
      Append(s, b, run, more);
      run := run + more;
      run, end := Then(s, b, run, Pass(1));
      run, end := Then(s, b, run, Idle);
    }
    assert end.lock > 0 && end.clients[1].Holding?;
  }

  /** A run of two polite clients from the start. */
  predicate Fair(panel: Panel, b: Bounds, run: seq<Action>) {
    Runs(Init(2, panel), b, run) && Polite(Init(2, panel), b, run)
  }

  lemma StolenIsUnsound(s: State)
    requires Stolen(s)
    ensures !Sound(s)
  {
    HoldersCount(s.clients);
  }

  lemma {:induction false} HoldersCount(clients: seq<Client>)
    requires exists i :: 0 <= i < |clients| && clients[i].Holding?
    ensures Holders(clients) >= 1
  {
    var n := |clients| - 1;
    if !clients[n].Holding? {
      var i :| 0 <= i < |clients| && clients[i].Holding?;
      assert clients[..n][i].Holding?;
      HoldersCount(clients[..n]);
    }
  }

  /** Recovery never strikes a live client if and only if there is that room, whether clients are patient or not. */
  lemma RecoveryIsHarmlessIff(panel: Panel, b: Bounds)
    requires b.gap > 0
    ensures Roomy(b) <==> forall run :: Fair(panel, b, run) ==> Spares(Init(2, panel), b, run)
  {
    if Roomy(b) {
      forall run | Fair(panel, b, run) ensures Spares(Init(2, panel), b, run) {
        RoomSpares(Init(2, panel), b, run);
      }
    } else {
      var run := RecoveryStrikesTheLiving(panel, b);
      assert Fair(panel, b, run);
    }
  }

  /** As long as recovery strikes no live client, the mailbox is safe if and only if the supervisor comes round
      sooner than a client gives up, or no hold lasts that long. */
  lemma GivingUpIsHarmlessIff(panel: Panel, b: Bounds)
    ensures Patient(b) <==> forall run :: Lawful(Init(2, panel), b, run) ==> Sound(After(Init(2, panel), b, run))
    ensures Patient(b) <==> forall run :: Lawful(Init(2, panel), b, run) ==> Wanted(After(Init(2, panel), b, run))
  {
    if Patient(b) {
      forall run | Lawful(Init(2, panel), b, run)
        ensures Sound(After(Init(2, panel), b, run)) && Wanted(After(Init(2, panel), b, run))
      {
        MailboxIsSafe(2, panel, b, run);
      }
    } else {
      var run := GivingUpBreaksIt(panel, b);
      var s := After(Init(2, panel), b, run);
      assert Lawful(Init(2, panel), b, run) && !Wanted(s) && !Sound(s);
    }
  }

  /** Every command that was served has been asked. */
  predicate Wanted(s: State) {
    forall k :: 0 <= k < |s.log| ==> s.log[k].words in s.asked
  }

  /** Exactly when the mailbox is safe without any such proviso: both. */
  lemma MailboxIsSafeIff(panel: Panel, b: Bounds)
    requires b.gap > 0
    ensures Roomy(b) && Patient(b) <==> forall run :: Fair(panel, b, run) ==> Sound(After(Init(2, panel), b, run))
  {
    if Roomy(b) && Patient(b) {
      forall run | Fair(panel, b, run) ensures Sound(After(Init(2, panel), b, run)) {
        RoomSpares(Init(2, panel), b, run);
        MailboxIsSafe(2, panel, b, run);
      }
    } else if !Roomy(b) {
      var run := RecoveryStrikesTheLiving(panel, b);
      StolenIsUnsound(After(Init(2, panel), b, run));
      assert Fair(panel, b, run);
    } else {
      var run := GivingUpBreaksIt(panel, b);
      var s := After(Init(2, panel), b, run);
      assert !Sound(s);
      assert Fair(panel, b, run);
    }
  }

  /** Clients do get to give up in such runs: one that is slow to look, if it may keep the mailbox that long. */
  lemma GivingUpHappens(panel: Panel, b: Bounds) returns (run: seq<Action>)
    requires 0 < b.gap && b.patience <= b.hold && b.patience <= LOCK_STUCK_MS
    ensures Lawful(Init(2, panel), b, run) && Enabled(After(Init(2, panel), b, run), b, GiveUp(0))
  {
    var end;
    run, end := AnsweredHold(panel, b, b.patience);
  }
}
