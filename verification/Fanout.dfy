/**
 * internal/kube/list.go, the concurrent part: nested Concurrent calls whose workers page
 * through collections, every request taking a slot of one process-wide semaphore.
 *
 * The goroutines form a tree. A step is one visible action of one goroutine; a schedule is
 * any sequence of them.
 */
module Fanout {
  import opened Sequences
  import opened Listing

  const MAX_IN_FLIGHT := 32

  /** The results of a call: a list, or one value per concurrent function. */
  datatype Value<+T> = Items(items: seq<T>) | Parts(parts: seq<Value<T>>)
  datatype Answer<+T> = Good(value: Value<T>) | Bad(error: string)

  /** Where a paging goroutine stands: before its request (waiting for a slot), with the
      request on the wire, or with the reply in hand; the last two hold a slot. */
  datatype Phase<+T> = Waiting | Requesting | Answered(reply: Reply<T>)

  datatype Task<T> =
    | Walk(ns: string, opts: ListOptions, acc: seq<T>, want: Option<set<string>>, phase: Phase<T>)
    | Fan(concat: bool, workers: seq<Worker<T>>, spawned: nat, pending: nat)
    | Finished(answer: Answer<T>)

  /** One function of a Concurrent call, with the variables it writes when it returns:
      `done` once it has stored per[i] and errs[i] and called wg.Done. */
  datatype Worker<T> = Worker(task: Task<T>, per: Value<T>, err: Option<string>, done: bool)

  datatype Env<!T> = Env(page: Server<T>, nsOf: T -> string)

  type Rank = (string, ListOptions) -> nat

  // ---- what the calls compute, run one after the other ------------------------------------------

  function Keep<T>(e: Env<T>, items: seq<T>, want: Option<set<string>>): seq<T> {
    match want case None => items case Some(names) => Filter(items, InNames(e, names))
  }

  function InNames<T>(e: Env<T>, names: set<string>): T -> bool { x => e.nsOf(x) in names }

  function Finish<T>(e: Env<T>, out: Outcome<T>, want: Option<set<string>>): Answer<T> {
    match out case Ok(items) => Good(Items(Keep(e, items, want))) case Err(error) => Bad(error)
  }

  function Flat<T>(v: Value<T>): seq<T> {
    match v
    case Items(items) => items
    case Parts(parts) => FlatAll(parts)
  }

  function FlatAll<T>(vs: seq<Value<T>>): seq<T> {
    if vs == [] then [] else Flat(vs[0]) + FlatAll(vs[1..])
  }

  /** The first error in argument order, or else the values, concatenated or side by side. */
  function Joined<T>(concat: bool, answers: seq<Answer<T>>): Answer<T> {
    match FirstError(answers)
    case Some(error) => Bad(error)
    case None => Good(if concat then Items(FlatAll(Values(answers))) else Parts(Values(answers)))
  }

  ghost predicate FirstBad<T>(answers: seq<Answer<T>>, i: nat, error: string) {
    i < |answers| && answers[i] == Bad(error) && forall j :: 0 <= j < i ==> answers[j].Good?
  }

  function FirstError<T>(answers: seq<Answer<T>>): (error: Option<string>)
    ensures error.None? <==> forall i :: 0 <= i < |answers| ==> answers[i].Good?
    ensures error.Some? ==> exists i: nat :: FirstBad(answers, i, error.value)
  {
    if answers == [] then None
    else if answers[0].Bad? then assert FirstBad(answers, 0, answers[0].error); Some(answers[0].error)
    else
      var rest := FirstError(answers[1..]);
      assert rest.Some? ==> exists i: nat :: FirstBad(answers, i, rest.value) by {
        if rest.Some? {
          var i: nat :| FirstBad(answers[1..], i, rest.value);
          assert forall j :: 1 <= j <= i + 1 ==> answers[j] == answers[1..][j - 1];
          assert FirstBad(answers, i + 1, rest.value);
        }
      }
      rest
  }

  function Values<T>(answers: seq<Answer<T>>): seq<Value<T>> {
    if answers == [] then []
    else [if answers[0].Good? then answers[0].value else Items([])] + Values(answers[1..])
  }

  /** What a task comes to, whatever its state. */
  ghost function Meaning<T>(e: Env<T>, rank: Rank, t: Task<T>): Answer<T>
    requires RunsOut(e.page, rank)
    decreases t, 1
  {
    match t
    case Walk(ns, opts, acc, want, _) => Finish(e, Prepend(acc, Drained(Replies(e.page, rank, ns, opts))), want)
    case Fan(concat, workers, _, _) => Joined(concat, Meanings(e, rank, workers))
    case Finished(answer) => answer
  }

  ghost function Meanings<T>(e: Env<T>, rank: Rank, ws: seq<Worker<T>>): (answers: seq<Answer<T>>)
    requires RunsOut(e.page, rank)
    ensures |answers| == |ws|
    decreases ws, 0
  {
    if ws == [] then []
    else [AnswerOf(e, rank, ws[0])] + Meanings(e, rank, ws[1..])
  }

  ghost function AnswerOf<T>(e: Env<T>, rank: Rank, w: Worker<T>): Answer<T>
    requires RunsOut(e.page, rank)
    decreases w, 0
  {
    if w.done then Stored(w) else Meaning(e, rank, w.task)
  }

  function Stored<T>(w: Worker<T>): Answer<T> {
    if w.err.Some? then Bad(w.err.value) else Good(w.per)
  }

  // ---- steps ----------------------------------------------------------------------------------------

  /** list.go:89-112 after a reply, with the slot already given back. */
  function AfterReply<T>(e: Env<T>, t: Task<T>, r: Reply<T>): Task<T>
    requires t.Walk?
  {
    match r
    case Failed(error) => Finished(Bad(error))
    case Page(items, next, _) =>
      if next == "" then Finished(Finish(e, Ok(t.acc + items), t.want))
      else t.(acc := t.acc + items, opts := t.opts.(token := next), phase := Waiting)
  }

  /** list.go:165-168 and 186-187, once every worker is done: `cmp.Or` over errs, then per. */
  function WorkersJoined<T>(concat: bool, ws: seq<Worker<T>>): Answer<T> {
    Joined(concat, StoredAll(ws))
  }

  function StoredAll<T>(ws: seq<Worker<T>>): seq<Answer<T>> {
    if ws == [] then [] else [Stored(ws[0])] + StoredAll(ws[1..])
  }

  /** The goroutine at `path` takes its next action; None when it is blocked or has none.
      At a Fan, the empty path is the calling goroutine (spawn, or pass wg.Wait), and [i] on a
      finished function is that goroutine storing its result and calling wg.Done. */
  function Step<T>(e: Env<T>, t: Task<T>, slots: nat, path: seq<nat>): Option<(Task<T>, nat)>
    decreases t
  {
    match t
    case Finished(_) => None
    case Walk(ns, opts, _, _, phase) =>
      if path != [] then None
      else (match phase
        case Waiting => if slots < MAX_IN_FLIGHT then Some((t.(phase := Requesting), slots + 1)) else None
        case Requesting => Some((t.(phase := Answered(e.page(ns, opts))), slots))
        case Answered(r) => if slots == 0 then None else Some((AfterReply(e, t, r), slots - 1)))
    case Fan(concat, ws, spawned, pending) =>
      if path == [] then
        if spawned < |ws| then Some((t.(spawned := spawned + 1), slots))
        else if pending == 0 then Some((Finished(WorkersJoined(concat, ws)), slots))
        else None
      else if path[0] >= spawned || path[0] >= |ws| || ws[path[0]].done then None
      else
        var i, w := path[0], ws[path[0]];
        if w.task.Finished? then
          if |path| > 1 || pending == 0 then None
          else Some((t.(workers := ws[i := Report(w)], pending := pending - 1), slots))
        else
          match Step(e, w.task, slots, path[1..])
          case None => None
          case Some((task, slots')) => Some((t.(workers := ws[i := w.(task := task)]), slots'))
  }

  /** list.go:160-162 and 184: a failed list leaves its part nil. */
  function Report<T>(w: Worker<T>): Worker<T>
    requires w.task.Finished?
  {
    match w.task.answer
    case Good(v) => w.(per := v, err := None, done := true)
    case Bad(error) => w.(per := Items([]), err := Some(error), done := true)
  }

  // ---- counting --------------------------------------------------------------------------------------

  datatype Count = SlotsHeld | OnTheWire | StepsLeft

  ghost function Total<T>(rank: Rank, t: Task<T>, c: Count): nat
    decreases t, 1
  {
    match t
    case Walk(ns, opts, _, _, phase) =>
      (match c
       case SlotsHeld => if phase.Waiting? then 0 else 1
       case OnTheWire => if phase.Requesting? then 1 else 0
       case StepsLeft => 3 * rank(ns, opts) + if phase.Waiting? then 4 else if phase.Requesting? then 3 else 2)
    case Fan(_, ws, spawned, _) =>
      TotalOf(rank, ws, c) + if c.StepsLeft? then 2 + (if spawned < |ws| then |ws| - spawned else 0) else 0
    case Finished(_) => if c.StepsLeft? then 1 else 0
  }

  ghost function TotalOf<T>(rank: Rank, ws: seq<Worker<T>>, c: Count): nat
    decreases ws, 0
  {
    if ws == [] then 0 else Share(rank, ws[0], c) + TotalOf(rank, ws[1..], c)
  }

  ghost function Share<T>(rank: Rank, w: Worker<T>, c: Count): nat
    decreases w, 0
  {
    if w.done then 0 else Total(rank, w.task, c)
  }

  ghost function NotDone<T>(ws: seq<Worker<T>>): nat {
    if ws == [] then 0 else (if ws[0].done then 0 else 1) + NotDone(ws[1..])
  }

  lemma {:induction false} TotalUpdate<T>(rank: Rank, ws: seq<Worker<T>>, i: nat, w: Worker<T>, c: Count)
    requires i < |ws|
    ensures TotalOf(rank, ws[i := w], c) == TotalOf(rank, ws, c) - Share(rank, ws[i], c) + Share(rank, w, c)
  {
    if i == 0 {
      assert ws[0 := w][1..] == ws[1..];
    } else {
      assert ws[i := w][1..] == ws[1..][i - 1 := w];
      TotalUpdate(rank, ws[1..], i - 1, w, c);
    }
  }

  lemma {:induction false} NotDoneUpdate<T>(ws: seq<Worker<T>>, i: nat, w: Worker<T>)
    requires i < |ws|
    ensures NotDone(ws[i := w]) == NotDone(ws) - (if ws[i].done then 0 else 1) + (if w.done then 0 else 1)
  {
    if i == 0 {
      assert ws[0 := w][1..] == ws[1..];
    } else {
      assert ws[i := w][1..] == ws[1..][i - 1 := w];
      NotDoneUpdate(ws[1..], i - 1, w);
    }
  }

  lemma {:induction false} MeaningsUpdate<T>(e: Env<T>, rank: Rank, ws: seq<Worker<T>>, i: nat, w: Worker<T>)
    requires RunsOut(e.page, rank) && i < |ws|
    requires AnswerOf(e, rank, w) == AnswerOf(e, rank, ws[i])
    ensures Meanings(e, rank, ws[i := w]) == Meanings(e, rank, ws)
  {
    if i == 0 {
      assert ws[0 := w][1..] == ws[1..];
    } else {
      assert ws[i := w][1..] == ws[1..][i - 1 := w];
      MeaningsUpdate(e, rank, ws[1..], i - 1, w);
    }
  }

  lemma {:induction false} AllStored<T>(e: Env<T>, rank: Rank, ws: seq<Worker<T>>)
    requires RunsOut(e.page, rank) && NotDone(ws) == 0
    ensures Meanings(e, rank, ws) == StoredAll(ws)
    ensures TotalOf(rank, ws, SlotsHeld) == 0
  {
    if ws != [] { AllStored(e, rank, ws[1..]); }
  }

  lemma {:induction false} SomeNotDone<T>(ws: seq<Worker<T>>) returns (i: nat)
    requires NotDone(ws) > 0
    ensures i < |ws| && !ws[i].done
  {
    if !ws[0].done { i := 0; } else { i := SomeNotDone(ws[1..]); i := i + 1; }
  }

  lemma {:induction false} SomeHolder<T>(rank: Rank, ws: seq<Worker<T>>) returns (i: nat)
    requires TotalOf(rank, ws, SlotsHeld) > 0
    ensures i < |ws| && Share(rank, ws[i], SlotsHeld) > 0
  {
    if Share(rank, ws[0], SlotsHeld) > 0 { i := 0; } else { i := SomeHolder(rank, ws[1..]); i := i + 1; }
  }

  lemma {:induction false} ShareBounded<T>(rank: Rank, ws: seq<Worker<T>>, i: nat, c: Count)
    requires i < |ws|
    ensures Share(rank, ws[i], c) <= TotalOf(rank, ws, c)
  {
    if i > 0 { ShareBounded(rank, ws[1..], i - 1, c); }
  }

  // ---- the invariant ----------------------------------------------------------------------------------

  ghost predicate Inv<T>(e: Env<T>, rank: Rank, t: Task<T>)
    decreases t
  {
    match t
    case Walk(ns, opts, _, _, phase) => phase.Answered? ==> phase.reply == e.page(ns, opts)
    case Fan(_, ws, spawned, pending) =>
      && spawned <= |ws|
      && pending == NotDone(ws)
      && (forall i :: 0 <= i < |ws| ==> Inv(e, rank, ws[i].task))
      && (forall i :: spawned <= i < |ws| ==> Share(rank, ws[i], SlotsHeld) == 0)
    case Finished(_) => true
  }

  /** What one step of any goroutine does to the accounts, and what it leaves alone. */
  ghost predicate StepKeeps<T>(e: Env<T>, rank: Rank, t: Task<T>, slots: nat, t': Task<T>, slots': nat)
    requires RunsOut(e.page, rank)
  {
    && Inv(e, rank, t')
    && Meaning(e, rank, t') == Meaning(e, rank, t)
    && slots' - slots == Total(rank, t', SlotsHeld) - Total(rank, t, SlotsHeld)
    && (slots <= MAX_IN_FLIGHT ==> slots' <= MAX_IN_FLIGHT)
    && Total(rank, t', StepsLeft) < Total(rank, t, StepsLeft)
  }

  lemma WalkStep<T>(e: Env<T>, rank: Rank, t: Task<T>, slots: nat, path: seq<nat>)
    requires RunsOut(e.page, rank) && t.Walk? && Inv(e, rank, t) && Step(e, t, slots, path).Some?
    ensures var (t', slots') := Step(e, t, slots, path).value; StepKeeps(e, rank, t, slots, t', slots')
  {
    if t.phase.Answered? {
      var r := t.phase.reply;
      DrainStep(e.page, rank, t.ns, t.opts);
      if r.Page? && r.next != "" {
        PrependTwice(t.acc, r.items, Drained(Replies(e.page, rank, t.ns, t.opts.(token := r.next))));
      }
    }
  }

  /** The call's own step: spawn a function, or return once every one is done. */
  lemma CallStep<T>(e: Env<T>, rank: Rank, t: Task<T>, slots: nat)
    requires RunsOut(e.page, rank) && t.Fan? && Inv(e, rank, t) && Step(e, t, slots, []).Some?
    ensures var (t', slots') := Step(e, t, slots, []).value; StepKeeps(e, rank, t, slots, t', slots')
  {
    if t.spawned == |t.workers| { AllStored(e, rank, t.workers); }
  }

  /** A step of worker `i`, given what it does to the worker. */
  lemma WorkerStep<T>(e: Env<T>, rank: Rank, t: Task<T>, slots: nat, path: seq<nat>)
    requires RunsOut(e.page, rank) && t.Fan? && Inv(e, rank, t) && path != [] && Step(e, t, slots, path).Some?
    requires var task := t.workers[path[0]].task; !task.Finished? ==>
      && Step(e, task, slots, path[1..]).Some?
      && var (task', slots') := Step(e, task, slots, path[1..]).value; StepKeeps(e, rank, task, slots, task', slots')
    ensures var (t', slots') := Step(e, t, slots, path).value; StepKeeps(e, rank, t, slots, t', slots')
  {
    var ws, i := t.workers, path[0];
    var w := ws[i];
    var w' := if w.task.Finished? then Report(w) else w.(task := Step(e, w.task, slots, path[1..]).value.0);
    TotalUpdate(rank, ws, i, w', SlotsHeld);
    TotalUpdate(rank, ws, i, w', StepsLeft);
    NotDoneUpdate(ws, i, w');
    MeaningsUpdate(e, rank, ws, i, w');
  }

  lemma {:induction false} AnyStep<T>(e: Env<T>, rank: Rank, t: Task<T>, slots: nat, path: seq<nat>)
    requires RunsOut(e.page, rank) && Inv(e, rank, t) && Step(e, t, slots, path).Some?
    ensures var (t', slots') := Step(e, t, slots, path).value; StepKeeps(e, rank, t, slots, t', slots')
    decreases t
  {
    if t.Walk? {
      WalkStep(e, rank, t, slots, path);
    } else if path == [] {
      CallStep(e, rank, t, slots);
    } else {
      var w := t.workers[path[0]];
      if !w.task.Finished? { AnyStep(e, rank, w.task, slots, path[1..]); }
      WorkerStep(e, rank, t, slots, path);
    }
  }

  lemma {:induction false} OnTheWireHoldsSlots<T>(rank: Rank, t: Task<T>)
    ensures Total(rank, t, OnTheWire) <= Total(rank, t, SlotsHeld)
    decreases t, 1
  {
    if t.Fan? { OnTheWireHoldsSlotsAll(rank, t.workers); }
  }

  lemma {:induction false} OnTheWireHoldsSlotsAll<T>(rank: Rank, ws: seq<Worker<T>>)
    ensures TotalOf(rank, ws, OnTheWire) <= TotalOf(rank, ws, SlotsHeld)
    decreases ws, 0
  {
    if ws != [] {
      OnTheWireHoldsSlotsOne(rank, ws[0]);
      OnTheWireHoldsSlotsAll(rank, ws[1..]);
    }
  }

  lemma {:induction false} OnTheWireHoldsSlotsOne<T>(rank: Rank, w: Worker<T>)
    ensures Share(rank, w, OnTheWire) <= Share(rank, w, SlotsHeld)
    decreases w, 0
  {
    OnTheWireHoldsSlots(rank, w.task);
  }

  ghost predicate CanMove<T>(e: Env<T>, t: Task<T>, slots: nat) {
    exists path :: Step(e, t, slots, path).Some?
  }

  /** A goroutine waiting for a slot holds none, so as long as something is unfinished,
      someone can move: a slot is free, or one of its holders gives it back. */
  lemma {:induction false} SomeoneCanMove<T>(e: Env<T>, rank: Rank, t: Task<T>, slots: nat) returns (path: seq<nat>)
    requires Inv(e, rank, t) && !t.Finished? && Total(rank, t, SlotsHeld) <= slots
    requires slots < MAX_IN_FLIGHT || Total(rank, t, SlotsHeld) > 0
    ensures Step(e, t, slots, path).Some?
    decreases t
  {
    path := [];
    if t.Fan? {
      var ws := t.workers;
      if slots < MAX_IN_FLIGHT && t.spawned < |ws| {
      } else if slots < MAX_IN_FLIGHT && NotDone(ws) == 0 {
      } else {
        var i: nat;
        if slots < MAX_IN_FLIGHT {
          i := SomeNotDone(ws);
        } else {
          i := SomeHolder(rank, ws);
        }
        ShareBounded(rank, ws, i, SlotsHeld);
        if ws[i].task.Finished? {
          NotDoneUpdate(ws, i, ws[i].(done := true));
          path := [i];
        } else {
          var rest := SomeoneCanMove(e, rank, ws[i].task, slots);
          path := [i] + rest;
          assert path[1..] == rest;
        }
      }
    }
  }

  // ---- whole runs -------------------------------------------------------------------------------------

  /** A call that has not started: nothing spawned, nothing asked. */
  ghost predicate Fresh<T>(t: Task<T>)
    decreases t
  {
    match t
    case Walk(_, _, acc, _, phase) => acc == [] && phase.Waiting?
    case Fan(_, ws, spawned, pending) =>
      spawned == 0 && pending == |ws| && forall i :: 0 <= i < |ws| ==> !ws[i].done && Fresh(ws[i].task)
    case Finished(_) => false
  }

  lemma {:induction false} FreshInv<T>(e: Env<T>, rank: Rank, t: Task<T>)
    requires Fresh(t)
    ensures Inv(e, rank, t) && Total(rank, t, SlotsHeld) == 0
    decreases t
  {
    if t.Fan? {
      forall i | 0 <= i < |t.workers|
        ensures Inv(e, rank, t.workers[i].task) && Share(rank, t.workers[i], SlotsHeld) == 0
      {
        FreshInv(e, rank, t.workers[i].task);
      }
      FreshTotals(rank, t.workers);
    }
  }

  lemma {:induction false} FreshTotals<T>(rank: Rank, ws: seq<Worker<T>>)
    requires forall i :: 0 <= i < |ws| ==> !ws[i].done && Share(rank, ws[i], SlotsHeld) == 0
    ensures TotalOf(rank, ws, SlotsHeld) == 0 && NotDone(ws) == |ws|
  {
    if ws != [] { FreshTotals(rank, ws[1..]); }
  }

  datatype State<T> = State(task: Task<T>, slots: nat)

  /** The state after a schedule, or None if it names a goroutine that cannot move. */
  function Run<T>(e: Env<T>, s: State<T>, schedule: seq<seq<nat>>): Option<State<T>>
    decreases |schedule|
  {
    if schedule == [] then Some(s)
    else match Step(e, s.task, s.slots, schedule[0])
      case None => None
      case Some((task, slots)) => Run(e, State(task, slots), schedule[1..])
  }

  ghost predicate Consistent<T>(e: Env<T>, rank: Rank, s: State<T>) {
    Inv(e, rank, s.task) && s.slots == Total(rank, s.task, SlotsHeld) <= MAX_IN_FLIGHT
  }

  lemma {:induction false} RunKeeps<T>(e: Env<T>, rank: Rank, s: State<T>, schedule: seq<seq<nat>>)
    requires RunsOut(e.page, rank) && Consistent(e, rank, s) && Run(e, s, schedule).Some?
    ensures var s' := Run(e, s, schedule).value;
      && Consistent(e, rank, s')
      && Meaning(e, rank, s'.task) == Meaning(e, rank, s.task)
      && |schedule| + Total(rank, s'.task, StepsLeft) <= Total(rank, s.task, StepsLeft)
    decreases |schedule|
  {
    if schedule != [] {
      AnyStep(e, rank, s.task, s.slots, schedule[0]);
      var (task, slots) := Step(e, s.task, s.slots, schedule[0]).value;
      RunKeeps(e, rank, State(task, slots), schedule[1..]);
    }
  }

  /** Safety and progress of every reachable state: the occupied slots are exactly the ones
      held, at most MAX_IN_FLIGHT, requests on the wire never exceed them, and unless the
      call has returned someone can move. */
  lemma EveryReachableState<T>(e: Env<T>, rank: Rank, t: Task<T>, schedule: seq<seq<nat>>)
    requires RunsOut(e.page, rank) && Fresh(t) && Run(e, State(t, 0), schedule).Some?
    ensures var s := Run(e, State(t, 0), schedule).value;
      && s.slots == Total(rank, s.task, SlotsHeld)
      && Total(rank, s.task, OnTheWire) <= s.slots <= 32
      && (s.task.Finished? || CanMove(e, s.task, s.slots))
  {
    FreshInv(e, rank, t);
    RunKeeps(e, rank, State(t, 0), schedule);
    var s := Run(e, State(t, 0), schedule).value;
    OnTheWireHoldsSlots(rank, s.task);
    if !s.task.Finished? {
      var path := SomeoneCanMove(e, rank, s.task, s.slots);
    }
  }

  /** Every schedule is finite, and whichever one runs to the end, the answer is the one the
      calls give when run in order: the interleaving cannot be seen. */
  lemma EveryRunAgrees<T>(e: Env<T>, rank: Rank, t: Task<T>, schedule: seq<seq<nat>>)
    requires RunsOut(e.page, rank) && Fresh(t) && Run(e, State(t, 0), schedule).Some?
    ensures var s := Run(e, State(t, 0), schedule).value;
      && |schedule| <= Total(rank, t, StepsLeft)
      && (s.task.Finished? ==> s.task.answer == Meaning(e, rank, t) && s.slots == 0)
  {
    FreshInv(e, rank, t);
    RunKeeps(e, rank, State(t, 0), schedule);
  }

  /** list.go:179-188 under an arbitrary scheduler, which is only asked to pick a goroutine
      that can move whenever there is one. */
  method RunToEnd<T(!new)>(e: Env<T>, start: Task<T>, pick: (Task<T>, nat) -> seq<nat>, ghost rank: Rank)
    returns (answer: Answer<T>)
    requires RunsOut(e.page, rank) && Fresh(start)
    requires forall t, slots :: CanMove(e, t, slots) ==> Step(e, t, slots, pick(t, slots)).Some?
    ensures answer == Meaning(e, rank, start)
  {
    FreshInv(e, rank, start);
    var t, slots := start, 0;
    while !t.Finished?
      invariant Consistent(e, rank, State(t, slots))
      invariant Meaning(e, rank, t) == Meaning(e, rank, start)
      decreases Total(rank, t, StepsLeft)
    {
      ghost var path := SomeoneCanMove(e, rank, t, slots);
      assert CanMove(e, t, slots);
      AnyStep(e, rank, t, slots, pick(t, slots));
      var next := Step(e, t, slots, pick(t, slots)).value;
      t, slots := next.0, next.1;
    }
    answer := t.answer;
  }
}
