/** The executor's idempotency section: three tables behind one lock, entered by any number of
    threads. Every interleaving behaves as its calls did one after another in lock order. */
module ExecuteOnce {
  import opened Base

  /** What an operation hands back. `None` is a legal Python value that the cache cannot tell from
      an absent entry. */
  datatype Artifact = PyNone | Json(text: string)

  datatype OperationResult = Returned(artifact: Artifact) | Raised

  /** A request and what its operation does if it is run. */
  datatype Call = Call(key: string, fingerprint: string, result: OperationResult)

  datatype Answer =
    | KeyReused
    | NeedsReconciliation
    | FromCache(artifact: Artifact)
    | Executed(artifact: Artifact)
    | OperationFailed

  datatype Tables = Tables(requests: map<string, string>, cache: map<string, Artifact>, uncertain: set<string>)

  predicate Conflicts(t: Tables, c: Call) { c.key in t.requests && t.requests[c.key] != c.fingerprint }

  predicate Hit(t: Tables, c: Call) { c.key in t.cache && t.cache[c.key] != PyNone }

  predicate Runs(t: Tables, c: Call) { !Conflicts(t, c) && c.key !in t.uncertain && !Hit(t, c) }

  /** One pass through the locked section, as if alone. */
  function Section(t: Tables, c: Call): (Tables, Answer) {
    if Conflicts(t, c) then (t, KeyReused)
    else if c.key in t.uncertain then (t, NeedsReconciliation)
    else if Hit(t, c) then (t, FromCache(t.cache[c.key]))
    else
      var reserved := t.(requests := t.requests[c.key := c.fingerprint]);
      match c.result
      case Raised => (reserved.(uncertain := t.uncertain + {c.key}), OperationFailed)
      case Returned(a) => (reserved.(cache := t.cache[c.key := a], uncertain := t.uncertain - {c.key}), Executed(a))
  }

  /** The service object. The lock makes each call to this method one `Section`. */
  class ExecutorService {
    var requests: map<string, string>
    var cache: map<string, Artifact>
    var uncertain: set<string>

    constructor ()
      ensures Now() == EMPTY
    {
      requests, cache, uncertain := map[], map[], {};
    }

    function Now(): Tables
      reads this
    {
      Tables(requests, cache, uncertain)
    }

    method ExecuteOnce(c: Call) returns (answer: Answer)
      modifies this
      ensures (Now(), answer) == Section(old(Now()), c)
    {
      if c.key in requests && requests[c.key] != c.fingerprint {
        return KeyReused;
      }
      if c.key in uncertain {
        return NeedsReconciliation;
      }
      if c.key in cache && cache[c.key] != PyNone {
        return FromCache(cache[c.key]);
      }
      requests := requests[c.key := c.fingerprint];
      uncertain := uncertain + {c.key};
      match c.result {
        case Raised =>
          return OperationFailed;
        case Returned(artifact) =>
          cache := cache[c.key := artifact];
          uncertain := uncertain - {c.key};
          assert uncertain == old(uncertain) - {c.key};
          return Executed(artifact);
      }
    }
  }

  // ----- One call after another -----

  const EMPTY: Tables := Tables(map[], map[], {})

  function Replay(log: seq<Call>): Tables {
    if log == [] then EMPTY else Section(Replay(log[..|log| - 1]), log[|log| - 1]).0
  }

  /** The calls whose operation was run. */
  function Ran(log: seq<Call>): seq<Call> {
    if log == [] then [] else
    var front, c := log[..|log| - 1], log[|log| - 1];
    Ran(front) + if Runs(Replay(front), c) then [c] else []
  }

  function Answers(log: seq<Call>): seq<Answer> {
    if log == [] then [] else
    Answers(log[..|log| - 1]) + [Section(Replay(log[..|log| - 1]), log[|log| - 1]).1]
  }

  lemma ReplaySnoc(log: seq<Call>, c: Call)
    ensures Replay(log + [c]) == Section(Replay(log), c).0
    ensures Ran(log + [c]) == Ran(log) + (if Runs(Replay(log), c) then [c] else [])
    ensures Answers(log + [c]) == Answers(log) + [Section(Replay(log), c).1]
  {
    assert (log + [c])[..|log|] == log;
  }

  function Executions(ran: seq<Call>, key: string): nat {
    if ran == [] then 0 else
    Executions(ran[..|ran| - 1], key) + if ran[|ran| - 1].key == key then 1 else 0
  }

  /** The executions of a key whose operation returned `None`. */
  function NoneReturns(ran: seq<Call>, key: string): nat {
    if ran == [] then 0 else
    var c := ran[|ran| - 1];
    NoneReturns(ran[..|ran| - 1], key) + if c.key == key && c.result == Returned(PyNone) then 1 else 0
  }

  /** The keys of `_cache` and `_uncertain` together are those of `_requests`. A key is in both only
      when it was left uncertain after an earlier execution had returned `None`. */
  ghost predicate Consistent(t: Tables, ran: seq<Call>, key: string) {
    && (key in t.requests <==> key in t.cache || key in t.uncertain)
    && (key in t.cache && key in t.uncertain <==> key in t.uncertain && NoneReturns(ran, key) > 0)
    && (key in t.cache && key in t.uncertain ==> t.cache[key] == PyNone)
    && (key in t.cache && t.cache[key] == PyNone ==> NoneReturns(ran, key) > 0)
    && (NoneReturns(ran, key) > 0 ==> key in t.cache)
  }

  /** A key has run once more than it has returned `None`, unless its last execution returned `None`
      or it never ran. */
  ghost predicate Accounted(t: Tables, ran: seq<Call>, key: string) {
    Executions(ran, key) == NoneReturns(ran, key)
      + if key in t.uncertain || (key in t.cache && t.cache[key] != PyNone) then 1 else 0
  }

  lemma RanSnoc(ran: seq<Call>, c: Call, key: string)
    ensures Executions(ran + [c], key) == Executions(ran, key) + (if c.key == key then 1 else 0)
    ensures NoneReturns(ran + [c], key)
            == NoneReturns(ran, key) + (if c.key == key && c.result == Returned(PyNone) then 1 else 0)
  {
    assert (ran + [c])[..|ran|] == ran;
  }

  lemma StepAccounted(t: Tables, ran: seq<Call>, c: Call, key: string)
    requires Accounted(t, ran, key) && Consistent(t, ran, key)
    ensures var ran' := ran + (if Runs(t, c) then [c] else []);
      Accounted(Section(t, c).0, ran', key) && Consistent(Section(t, c).0, ran', key)
  {
    hide Executions, NoneReturns;
    RanSnoc(ran, c, key);
    assert ran + [] == ran;
  }

  lemma {:induction false} LogAccounted(log: seq<Call>, key: string)
    ensures Accounted(Replay(log), Ran(log), key) && Consistent(Replay(log), Ran(log), key)
  {
    if log != [] {
      var front, c := log[..|log| - 1], log[|log| - 1];
      LogAccounted(front, key);
      StepAccounted(Replay(front), Ran(front), c, key);
    }
  }

  // ----- Answers from history -----

  /** The last of some executed calls that had this key. */
  function LastOf(ran: seq<Call>, key: string): Option<Call> {
    if ran == [] then None
    else if ran[|ran| - 1].key == key then Some(ran[|ran| - 1])
    else LastOf(ran[..|ran| - 1], key)
  }

  /** What a call is told, given the last executed call with its key. It is executed if there is none, or
      if that one had the same fingerprint and returned `None`. */
  function Told(last: Option<Call>, c: Call): Answer {
    var own := match c.result case Raised => OperationFailed case Returned(a) => Executed(a);
    match last
    case None => own
    case Some(p) =>
      if p.fingerprint != c.fingerprint then KeyReused
      else
        match p.result
        case Raised => NeedsReconciliation
        case Returned(PyNone) => own
        case Returned(a) => FromCache(a)
  }

  /** The executed calls, as the answers tell. */
  function Executing(log: seq<Call>): seq<Call> {
    if log == [] then [] else
    var front, c := log[..|log| - 1], log[|log| - 1];
    var answer := Told(LastOf(Executing(front), c.key), c);
    Executing(front) + if answer.Executed? || answer.OperationFailed? then [c] else []
  }

  /** What the tables hold for a key is what the last executed call with it left. */
  ghost predicate Recorded(t: Tables, last: Option<Call>, key: string) {
    match last
    case None => key !in t.requests && key !in t.uncertain && key !in t.cache
    case Some(p) =>
      && key in t.requests && t.requests[key] == p.fingerprint
      && (key in t.uncertain <==> p.result.Raised?)
      && (key in t.cache && t.cache[key] != PyNone ==> p.result == Returned(t.cache[key]))
      && (p.result.Returned? ==> key in t.cache && t.cache[key] == p.result.artifact)
  }

  lemma LastSnoc(ran: seq<Call>, c: Call, key: string)
    ensures LastOf(ran + [c], key) == if c.key == key then Some(c) else LastOf(ran, key)
  {
    assert (ran + [c])[..|ran|] == ran;
  }

  lemma StepRecorded(t: Tables, ran: seq<Call>, c: Call, key: string)
    requires Recorded(t, LastOf(ran, key), key) && Recorded(t, LastOf(ran, c.key), c.key)
    ensures Section(t, c).1 == Told(LastOf(ran, c.key), c)
    ensures Runs(t, c) <==> Section(t, c).1.Executed? || Section(t, c).1.OperationFailed?
    ensures Recorded(Section(t, c).0, LastOf(ran + (if Runs(t, c) then [c] else []), key), key)
  {
    hide LastOf;
    LastSnoc(ran, c, key);
    Nothing(ran);
  }

  lemma {:induction false} LogRecorded(log: seq<Call>, key: string)
    ensures Ran(log) == Executing(log) && Recorded(Replay(log), LastOf(Ran(log), key), key)
  {
    hide Told, Recorded, Section, Runs, LastOf;
    if log == [] {
      assert Recorded(EMPTY, LastOf([], key), key) by { NothingRecorded(key); }
    } else {
      var front, c := log[..|log| - 1], log[|log| - 1];
      LogRecorded(front, key);
      LogRecorded(front, c.key);
      StepRecorded(Replay(front), Ran(front), c, key);
      Nothing(Ran(front));
    }
  }

  lemma NothingRecorded(key: string)
    ensures Recorded(EMPTY, LastOf([], key), key)
  {
  }

  /** Every answer follows from the calls executed before: the key is refused as reused if and only if the
      last executed call with it had another fingerprint, and a cached artifact is what that call returned. */
  lemma {:induction false} AnswersTold(log: seq<Call>, n: nat)
    requires n < |log|
    ensures |Answers(log)| == |log| && Answers(log)[n] == Told(LastOf(Executing(log[..n]), log[n].key), log[n])
    decreases |log|
  {
    hide Told, Recorded, Section, Runs, LastOf, Executing;
    var m := |log| - 1;
    AnswersLength(log);
    AnswersLength(log[..m]);
    if n == m {
      LogRecorded(log[..m], log[m].key);
      StepRecorded(Replay(log[..m]), Ran(log[..m]), log[m], log[m].key);
    } else {
      AnswersTold(log[..m], n);
      assert log[..m][..n] == log[..n];
    }
  }

  /** That last executed call is an earlier call of the log, answered as executed, with this key. */
  lemma {:induction false} LastIsEarlier(log: seq<Call>, key: string) returns (m: nat)
    requires LastOf(Executing(log), key).Some?
    ensures m < |log| == |Answers(log)| && LastOf(Executing(log), key) == Some(log[m]) && log[m].key == key
    ensures match log[m].result case Raised => Answers(log)[m] == OperationFailed case Returned(a) => Answers(log)[m] == Executed(a)
  {
    hide Section, Replay;
    var n := |log| - 1;
    var front, c := log[..n], log[n];
    AnswersLength(log);
    AnswersLength(front);
    LastSnoc(Executing(front), c, key);
    if LastOf(Executing(log), key) == Some(c) && c.key == key && Executing(log) == Executing(front) + [c] {
      AnswersTold(log, n);
      m := n;
    } else {
      Nothing(Executing(front));
      m := LastIsEarlier(front, key);
    }
  }

  /** An earlier call with the same key and fingerprint. */
  predicate SameRequest(log: seq<Call>, m: nat, n: nat) {
    m < n < |log| && log[m].key == log[n].key && log[m].fingerprint == log[n].fingerprint
  }

  /** A key is refused as reused if and only if the last executed call with it had another fingerprint, and
      a cached answer is the artifact that an executed call with this key and fingerprint returned. */
  lemma ReusedAndCached(log: seq<Call>, n: nat)
    requires n < |log| == |Answers(log)|
    ensures var last := LastOf(Executing(log[..n]), log[n].key);
      Answers(log)[n] == KeyReused <==> last.Some? && last.value.fingerprint != log[n].fingerprint
    ensures Answers(log)[n] == NeedsReconciliation ==>
              exists m: nat :: SameRequest(log, m, n) && Answers(log)[m] == OperationFailed
    ensures Answers(log)[n].FromCache? ==>
              exists m: nat :: SameRequest(log, m, n) && Answers(log)[m] == Executed(Answers(log)[n].artifact)
  {
    hide LastOf, Executing, Section, Replay, Answers;
    AnswersTold(log, n);
    if LastOf(Executing(log[..n]), log[n].key).Some? {
      var m := LastIsEarlier(log[..n], log[n].key);
      AnswersPrefix(log, n, m);
      assert log[m] == log[..n][m];
      if !(Answers(log)[n] == KeyReused) {
        assert SameRequest(log, m, n);
      }
    }
  }

  lemma {:induction false} AnswersPrefix(log: seq<Call>, n: nat, m: nat)
    requires m < n <= |log|
    ensures |Answers(log[..n])| == n && |Answers(log)| == |log| && Answers(log[..n])[m] == Answers(log)[m]
    decreases |log|
  {
    hide Section, Replay;
    AnswersLength(log);
    AnswersLength(log[..n]);
    if n == |log| {
      assert log[..n] == log;
    } else {
      AnswersPrefix(log[..|log| - 1], n, m);
      assert log[..|log| - 1][..n] == log[..n];
    }
  }

  lemma {:induction false} AnswersLength(log: seq<Call>)
    ensures |Answers(log)| == |log|
  {
    if log != [] {
      AnswersLength(log[..|log| - 1]);
    }
  }

  // ----- Threads -----

  datatype Pc =
    | ReadRequest
    | TestUncertain
    | ReadCache
    | Reserve
    | Mark
    | Operate
    | Store(artifact: Artifact)
    | Unmark(artifact: Artifact)
    | Leave(answer: Answer)

  datatype Thread = Idle | Waiting(call: Call) | Inside(call: Call, pc: Pc)

  /** Shared state. `log`, `answers` and `ran` record what has happened. */
  datatype State = State(tables: Tables, holder: Option<nat>, threads: map<nat, Thread>,
                         log: seq<Call>, answers: seq<Answer>, ran: seq<Call>)

  /** A thread is given a call, or it takes its next step. */
  datatype Move = Begin(thread: nat, call: Call) | Step(thread: nat)

  const START: State := State(EMPTY, None, map[], [], [], [])

  function At(s: State, id: nat): Thread {
    if id in s.threads then s.threads[id] else Idle
  }

  function Goto(s: State, id: nat, t: Thread): State {
    s.(threads := s.threads[id := t])
  }

  /** One indivisible step. A step that is not possible, such as taking a held lock, changes nothing. */
  function Next(s: State, m: Move): State {
    match m
    case Begin(id, call) => if At(s, id).Idle? then Goto(s, id, Waiting(call)) else s
    case Step(id) =>
      match At(s, id)
      case Idle => s
      case Waiting(call) =>
        if s.holder.None? then Goto(s, id, Inside(call, ReadRequest)).(holder := Some(id)) else s
      case Inside(call, pc) => Advance(s, id, call, pc)
  }

  function Advance(s: State, id: nat, c: Call, pc: Pc): State {
    var t := s.tables;
    match pc
    case ReadRequest => Goto(s, id, Inside(c, if Conflicts(t, c) then Leave(KeyReused) else TestUncertain))
    case TestUncertain => Goto(s, id, Inside(c, if c.key in t.uncertain then Leave(NeedsReconciliation) else ReadCache))
    case ReadCache => Goto(s, id, Inside(c, if Hit(t, c) then Leave(FromCache(t.cache[c.key])) else Reserve))
    case Reserve => Goto(s, id, Inside(c, Mark)).(tables := t.(requests := t.requests[c.key := c.fingerprint]))
    case Mark => Goto(s, id, Inside(c, Operate)).(tables := t.(uncertain := t.uncertain + {c.key}))
    case Operate =>
      Goto(s, id, Inside(c, if c.result.Raised? then Leave(OperationFailed) else Store(c.result.artifact)))
        .(ran := s.ran + [c])
    case Store(a) => Goto(s, id, Inside(c, Unmark(a))).(tables := t.(cache := t.cache[c.key := a]))
    case Unmark(a) => Goto(s, id, Inside(c, Leave(Executed(a)))).(tables := t.(uncertain := t.uncertain - {c.key}))
    case Leave(answer) => Goto(s, id, Idle).(holder := None, log := s.log + [c], answers := s.answers + [answer])
  }

  function Schedule(moves: seq<Move>): State {
    if moves == [] then START else Next(Schedule(moves[..|moves| - 1]), moves[|moves| - 1])
  }

  /** Where the tables stand when a call that found them as `t` has reached `pc`. */
  ghost predicate Partway(t: Tables, c: Call, pc: Pc, now: Tables) {
    match pc
    case ReadRequest => now == t
    case TestUncertain => now == t && !Conflicts(t, c)
    case ReadCache => now == t && !Conflicts(t, c) && c.key !in t.uncertain
    case Reserve => now == t && Runs(t, c)
    case Mark => Runs(t, c) && now == t.(requests := t.requests[c.key := c.fingerprint])
    case Operate => Runs(t, c)
      && now == t.(requests := t.requests[c.key := c.fingerprint], uncertain := t.uncertain + {c.key})
    case Store(a) => Runs(t, c) && c.result == Returned(a)
      && now == t.(requests := t.requests[c.key := c.fingerprint], uncertain := t.uncertain + {c.key})
    case Unmark(a) => Runs(t, c) && c.result == Returned(a)
      && now == Tables(t.requests[c.key := c.fingerprint], t.cache[c.key := a], t.uncertain + {c.key})
    case Leave(answer) => (now, answer) == Section(t, c)
  }

  predicate Operated(pc: Pc) { pc.Store? || pc.Unmark? || pc.Leave? }

  /** Only the holder is inside; outside the lock the tables are those of the log, and inside it they
      are on their way from there to the log with one more call. */
  ghost predicate Serial(s: State) {
    && (forall id: nat {:trigger At(s, id)} :: At(s, id).Inside? <==> s.holder == Some(id))
    && s.answers == Answers(s.log)
    && match s.holder
       case None => s.tables == Replay(s.log) && s.ran == Ran(s.log)
       case Some(id) =>
         && At(s, id).Inside?
         && Partway(Replay(s.log), At(s, id).call, At(s, id).pc, s.tables)
         && s.ran == Ran(s.log) + (if Operated(At(s, id).pc) && Runs(Replay(s.log), At(s, id).call)
                                   then [At(s, id).call] else [])
  }

  /** One step inside the section keeps the tables on their way. */
  lemma AdvancePartway(t: Tables, c: Call, pc: Pc, s: State, id: nat)
    requires At(s, id) == Inside(c, pc) && !pc.Leave? && Partway(t, c, pc, s.tables)
    ensures var s' := Advance(s, id, c, pc);
      && At(s', id).Inside? && At(s', id).call == c && Partway(t, c, At(s', id).pc, s'.tables)
      && (Operated(pc) && Runs(t, c) ==> Operated(At(s', id).pc) && s'.ran == s.ran)
      && (!(Operated(pc) && Runs(t, c)) ==>
            s'.ran == s.ran + if Operated(At(s', id).pc) && Runs(t, c) then [c] else [])
  {
    assert t.uncertain + {c.key} - {c.key} == t.uncertain - {c.key};
    assert s.ran + [] == s.ran;
  }

  lemma NextSerial(s: State, m: Move)
    requires Serial(s)
    ensures Serial(Next(s, m))
  {
    hide Partway, Section, Runs, Replay, Ran, Answers;
    var s' := Next(s, m);
    forall id: nat ensures At(s', id).Inside? <==> s'.holder == Some(id) {
      assert At(s, id).Inside? <==> s.holder == Some(id);
    }
    var own := At(s, m.thread);
    if m.Step? && own.Waiting? && s.holder.None? {
      EntersAt(s.tables, own.call);
      assert Ran(s.log) + [] == Ran(s.log);
    }
    if m.Step? && own.Inside? {
      if own.pc.Leave? {
        ReplaySnoc(s.log, own.call);
        LeavesAt(Replay(s.log), own.call, own.pc, s.tables);
      } else {
        AdvancePartway(Replay(s.log), own.call, own.pc, s, m.thread);
        assert Ran(s.log) + [] == Ran(s.log);
      }
    }
  }

  lemma EntersAt(t: Tables, c: Call)
    ensures Partway(t, c, ReadRequest, t)
  {
  }

  lemma LeavesAt(t: Tables, c: Call, pc: Pc, now: Tables)
    requires pc.Leave? && Partway(t, c, pc, now)
    ensures (now, pc.answer) == Section(t, c)
  {
  }

  /** Every reachable state is serial: each answer given so far is the one the calls would have got
      one after another, in the order they held the lock. */
  lemma {:induction false} Linearizable(moves: seq<Move>)
    ensures Serial(Schedule(moves))
  {
    hide Serial;
    if moves == [] {
      assert Serial(START) by { StartSerial(); }
    } else {
      Linearizable(moves[..|moves| - 1]);
      NextSerial(Schedule(moves[..|moves| - 1]), moves[|moves| - 1]);
    }
  }

  lemma StartSerial()
    ensures Serial(START)
  {
  }

  /** In every interleaving each answer given so far follows from the calls executed before it, in the
      order the calls held the lock. */
  lemma EveryAnswer(moves: seq<Move>, n: nat)
    requires n < |Schedule(moves).log|
    ensures var s := Schedule(moves);
      |s.answers| == |s.log| && s.answers[n] == Told(LastOf(Executing(s.log[..n]), s.log[n].key), s.log[n])
  {
    hide Schedule, Told, LastOf, Executing;
    Linearizable(moves);
    AnswersTold(Schedule(moves).log, n);
  }

  /** Whenever the lock is free, every key of `_requests` is in `_cache` or `_uncertain`, and it is in
      only one of them exactly when it is not an uncertain key that once returned `None`. */
  lemma TablesAgree(moves: seq<Move>, key: string)
    requires Schedule(moves).holder.None?
    ensures var t := Schedule(moves).tables;
      && (key in t.requests <==> key in t.cache || key in t.uncertain)
      && (!(key in t.cache && key in t.uncertain)
          <==> !(key in t.uncertain && NoneReturns(Schedule(moves).ran, key) > 0))
  {
    Linearizable(moves);
    LogAccounted(Schedule(moves).log, key);
  }

  /** The log, with the holder's call once its operation is behind it. */
  function Entered(s: State): seq<Call> {
    if s.holder.Some? && At(s, s.holder.value).Inside? && Operated(At(s, s.holder.value).pc)
    then s.log + [At(s, s.holder.value).call] else s.log
  }

  /** What has run so far is what those calls have run. */
  lemma RanIsLogged(s: State)
    requires Serial(s)
    ensures s.ran == Ran(Entered(s))
  {
    if s.holder.Some? {
      ReplaySnoc(s.log, At(s, s.holder.value).call);
    }
    assert Ran(s.log) + [] == Ran(s.log);
  }

  /** In every interleaving a key runs at most once more than it has returned `None`. */
  lemma AtMostOnce(moves: seq<Move>, key: string)
    ensures Executions(Schedule(moves).ran, key) <= 1 + NoneReturns(Schedule(moves).ran, key)
  {
    hide Serial;
    Linearizable(moves);
    RanIsLogged(Schedule(moves));
    LogAccounted(Entered(Schedule(moves)), key);
  }

  /** So operations that never return `None` run at most once per key, and one that does is run
      again by the very next call with its key and fingerprint. */
  lemma {:induction false} NonNullRunsOnce(ran: seq<Call>, key: string)
    requires forall c :: c in ran && c.key == key ==> c.result != Returned(PyNone)
    ensures NoneReturns(ran, key) == 0
  {
    if ran != [] {
      NonNullRunsOnce(ran[..|ran| - 1], key);
    }
  }

  lemma AtMostOncePerKey(moves: seq<Move>, key: string)
    requires forall c :: c in Schedule(moves).ran && c.key == key ==> c.result != Returned(PyNone)
    ensures Executions(Schedule(moves).ran, key) <= 1
  {
    AtMostOnce(moves, key);
    NonNullRunsOnce(Schedule(moves).ran, key);
  }

  lemma NoneRunsAgain(log: seq<Call>, c: Call)
    requires Runs(Replay(log), c) && c.result == Returned(PyNone)
    ensures Executions(Ran(log + [c, c]), c.key) == Executions(Ran(log), c.key) + 2
  {
    ReplaySnoc(log, c);
    ReplaySnoc(log + [c], c);
    assert log + [c, c] == log + [c] + [c];
    assert Ran(log + [c]) == Ran(log) + [c] && Ran(log + [c, c]) == Ran(log) + [c] + [c];
    OneMore(Ran(log), c);
    OneMore(Ran(log) + [c], c);
  }

  lemma OneMore(ran: seq<Call>, c: Call)
    ensures Executions(ran + [c], c.key) == Executions(ran, c.key) + 1
  {
    assert (ran + [c])[..|ran|] == ran;
  }

  // ----- What never changes -----

  /** A fingerprint stays, and an artifact other than `None` stays. */
  ghost predicate KeepsRecords(t: Tables, u: Tables) {
    && (forall k :: k in t.requests ==> k in u.requests && u.requests[k] == t.requests[k])
    && (forall k :: k in t.cache && t.cache[k] != PyNone ==> k in u.cache && u.cache[k] == t.cache[k])
  }

  /** A key left uncertain stays so too. */
  ghost predicate Keeps(t: Tables, u: Tables) {
    KeepsRecords(t, u) && t.uncertain <= u.uncertain
  }

  lemma SectionKeeps(t: Tables, c: Call)
    ensures Keeps(t, Section(t, c).0)
  {
  }

  lemma {:induction false} ReplayKeeps(log: seq<Call>, more: seq<Call>)
    ensures Keeps(Replay(log), Replay(log + more))
  {
    if more == [] {
      assert log + more == log;
    } else {
      var n := |more| - 1;
      ReplayKeeps(log, more[..n]);
      assert log + more == log + more[..n] + [more[n]];
      ReplaySnoc(log + more[..n], more[n]);
      SectionKeeps(Replay(log + more[..n]), more[n]);
    }
  }

  lemma {:induction false} RaisedIsUncertain(log: seq<Call>, c: Call)
    requires c in Ran(log) && c.result.Raised?
    ensures c.key in Replay(log).uncertain
  {
    var front, last := log[..|log| - 1], log[|log| - 1];
    SectionKeeps(Replay(front), last);
    if c in Ran(front) {
      RaisedIsUncertain(front, c);
    }
  }

  lemma {:induction false} UncertainRunsNoMore(log: seq<Call>, more: seq<Call>, key: string)
    requires key in Replay(log).uncertain
    ensures Executions(Ran(log + more), key) == Executions(Ran(log), key)
  {
    if more == [] {
      assert log + more == log;
    } else {
      var n := |more| - 1;
      UncertainRunsNoMore(log, more[..n], key);
      ReplayKeeps(log, more[..n]);
      assert log + more == log + more[..n] + [more[n]];
      ReplaySnoc(log + more[..n], more[n]);
      RanSnoc(Ran(log + more[..n]), more[n], key);
      assert Ran(log + more[..n]) + [] == Ran(log + more[..n]);
    }
  }

  lemma EnteredStep(s: State, m: Move)
    requires Serial(s)
    ensures Entered(s) <= Entered(Next(s, m))
  {
    hide Partway, Section, Runs, Replay, Ran, Answers, Conflicts, Hit;
    assert At(s, m.thread).Inside? <==> s.holder == Some(m.thread);
  }

  lemma {:induction false} EnteredGrows(moves: seq<Move>, more: seq<Move>)
    ensures Entered(Schedule(moves)) <= Entered(Schedule(moves + more))
  {
    hide Serial, Entered, Next;
    if more == [] {
      assert moves + more == moves;
    } else {
      var n := |more| - 1;
      EnteredGrows(moves, more[..n]);
      assert (moves + more)[..|moves + more| - 1] == moves + more[..n];
      Linearizable(moves + more[..n]);
      EnteredStep(Schedule(moves + more[..n]), more[n]);
    }
  }

  /** Once an operation has raised, in whatever interleaving and whoever holds the lock, its key
      executes no more, whatever steps follow. */
  lemma RaisedIsFinal(moves: seq<Move>, more: seq<Move>, c: Call)
    requires c in Schedule(moves).ran && c.result.Raised?
    ensures Executions(Schedule(moves + more).ran, c.key) == Executions(Schedule(moves).ran, c.key)
  {
    hide Serial, Entered, Schedule;
    Linearizable(moves);
    Linearizable(moves + more);
    RanIsLogged(Schedule(moves));
    RanIsLogged(Schedule(moves + more));
    EnteredGrows(moves, more);
    var log, log' := Entered(Schedule(moves)), Entered(Schedule(moves + more));
    RaisedIsUncertain(log, c);
    UncertainRunsNoMore(log, log'[|log|..], c.key);
    assert log + log'[|log|..] == log';
  }

  /** The holder has marked the key as uncertain and will take the mark back. */
  predicate Pending(s: State, key: string) {
    s.holder.Some? &&
    match At(s, s.holder.value)
    case Inside(c, pc) => c.key == key && ((pc.Operate? && c.result.Returned?) || pc.Store? || pc.Unmark?)
    case _ => false
  }

  /** Whoever holds the lock: records stay, and so does every uncertainty that is not pending. */
  ghost predicate Settled(s: State, s': State) {
    && KeepsRecords(s.tables, s'.tables)
    && forall k :: k in s.tables.uncertain && !Pending(s, k) ==> k in s'.tables.uncertain && !Pending(s', k)
  }

  lemma AdvanceSettles(t: Tables, s: State, id: nat, c: Call, pc: Pc)
    requires s.holder == Some(id) && At(s, id) == Inside(c, pc) && Partway(t, c, pc, s.tables)
    ensures Settled(s, Advance(s, id, c, pc))
  {
  }

  lemma NextSettles(s: State, m: Move)
    requires Serial(s)
    ensures Settled(s, Next(s, m))
  {
    hide Partway, Section, Runs, Replay, Ran, Answers, Advance;
    assert At(s, m.thread).Inside? <==> s.holder == Some(m.thread);
    if m.Step? && At(s, m.thread).Inside? {
      AdvanceSettles(Replay(s.log), s, m.thread, At(s, m.thread).call, At(s, m.thread).pc);
    }
  }

  /** From any moment of any interleaving on, and whoever holds the lock then or later, no fingerprint
      changes, no artifact other than `None` does, and a key stays uncertain unless the holder is about
      to take back its own mark. */
  lemma {:induction false} SettledStays(moves: seq<Move>, more: seq<Move>)
    ensures Settled(Schedule(moves), Schedule(moves + more))
  {
    hide Serial, Next, Pending;
    if more == [] {
      assert moves + more == moves;
    } else {
      var n := |more| - 1;
      SettledStays(moves, more[..n]);
      assert (moves + more)[..|moves + more| - 1] == moves + more[..n];
      Linearizable(moves + more[..n]);
      NextSettles(Schedule(moves + more[..n]), more[n]);
    }
  }

  /** That exception is exact: a pending mark is gone after three more steps of the holder. */
  lemma UncertainForGood(moves: seq<Move>, key: string)
    requires key in Schedule(moves).tables.uncertain
    ensures !Pending(Schedule(moves), key) <==> forall more :: key in Schedule(moves + more).tables.uncertain
  {
    hide Next, Serial;
    if Pending(Schedule(moves), key) {
      var step := Step(Schedule(moves).holder.value);
      MarkTakenBack(Schedule(moves), key);
      ThreeSteps(moves, step);
      assert key !in Schedule(moves + [step, step, step]).tables.uncertain;
    } else {
      forall more ensures key in Schedule(moves + more).tables.uncertain {
        SettledStays(moves, more);
      }
    }
  }

  lemma ThreeSteps(moves: seq<Move>, m: Move)
    ensures Schedule(moves + [m, m, m]) == Next(Next(Next(Schedule(moves), m), m), m)
  {
    hide Next, Schedule;
    ScheduleNext(moves, m);
    ScheduleNext(moves + [m], m);
    ScheduleNext(moves + [m] + [m], m);
    assert moves + [m, m, m] == moves + [m] + [m] + [m];
  }

  lemma ScheduleNext(moves: seq<Move>, m: Move)
    ensures Schedule(moves + [m]) == Next(Schedule(moves), m)
  {
    hide Next;
    assert (moves + [m])[..|moves|] == moves;
  }

  lemma MarkTakenBack(s: State, key: string)
    requires Pending(s, key)
    ensures var step := Step(s.holder.value);
      key !in Next(Next(Next(s, step), step), step).tables.uncertain
  {
  }
}
