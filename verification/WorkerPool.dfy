/** The listener and the workers of one child process, as steps that interleave freely. The queue between
    them is that of ConnectionQueue; here it is its contents. */
module WorkerPool {
  import ConnectionQueue

  /** Where a worker is in its loop: looking for work, with a connection before and after it is counted as
      busy, with the connection closed but still counted, or gone. */
  datatype Worker = Looking | Holding(con: nat) | Serving(con: nat) | Leaving | Gone

  /** The listener: accepting, or with an accepted connection in its hands. */
  datatype Listener = Accepting | Offering(con: nat)

  /** locals is what each worker's own variable for a connection holds, at first something in junk. arrived,
      entered, taken and closed record what happened, in order; dropped, what found the queue full; lost,
      what was accepted and then neither queued nor closed. */
  datatype State = State(
    listener: Listener, queue: seq<nat>, used: nat, workers: seq<Worker>, busy: int, locals: seq<nat>, junk: set<nat>,
    arrived: seq<nat>, entered: seq<nat>, taken: seq<nat>, closed: seq<nat>, dropped: set<nat>, lost: set<nat>)

  /** What put_to_queue meets when it is not refused by a full queue: a node, no node, or a mutex it cannot lock. */
  datatype Push = Queued | NoNode | NoLock

  datatype Step =
    | Accept(con: nat)        // icap_accept_raw_connection
    | Put(push: Push)         // put_to_queue, and the close of a dropped connection
    | Get(i: nat)             // get_from_queue
    | CountIn(i: nat)         // ci_atomic_add_i32 on usedservers
    | Serve(i: nat)           // process_request, with or without keep-alive
    | Close(i: nat)           // the connection is closed, after requests or after a failure
    | CountOut(i: nat)        // ci_atomic_sub_i32 on usedservers
    | Exit(i: nat)            // to_be_killed, or an error of the queue

  /** The step can be taken. A connection is accepted once, and is nothing a variable held before. */
  predicate Enabled(s: State, step: Step)
  {
    match step
    case Accept(con) => s.listener == Accepting && con !in s.arrived && con !in s.junk
    case Put(_) => s.listener.Offering?
    case Get(i) => i < |s.workers| && s.workers[i] == Looking && i < |s.locals|
    case CountIn(i) => i < |s.workers| && s.workers[i].Holding?
    case Serve(i) => i < |s.workers| && s.workers[i].Serving?
    case Close(i) => i < |s.workers| && s.workers[i].Serving?
    case CountOut(i) => i < |s.workers| && s.workers[i] == Leaving
    case Exit(i) => i < |s.workers| && s.workers[i] == Looking
  }

  function Next(s: State, step: Step, warnSize: nat): State
    requires Enabled(s, step)
  {
    match step
    case Accept(con) => s.(listener := Offering(con), arrived := s.arrived + [con])
    case Put(push) =>
      var con := s.listener.con;
      if push == NoLock then s.(listener := Accepting, lost := s.lost + {con})
      else if s.used == warnSize then s.(listener := Accepting, closed := s.closed + [con], dropped := s.dropped + {con})
      else if push == NoNode then s.(listener := Accepting, used := s.used + 1, lost := s.lost + {con})
      else s.(listener := Accepting, queue := s.queue + [con], used := s.used + 1, entered := s.entered + [con])
    case Get(i) =>
      if s.used == 0 then s
      else if s.queue == [] then s.(used := s.used - 1, workers := s.workers[i := Holding(s.locals[i])])
      else s.(queue := s.queue[1..], used := s.used - 1, taken := s.taken + [s.queue[0]],
              workers := s.workers[i := Holding(s.queue[0])], locals := s.locals[i := s.queue[0]])
    case CountIn(i) => s.(busy := s.busy + 1, workers := s.workers[i := Serving(s.workers[i].con)])
    case Serve(i) => s
    case Close(i) => s.(closed := s.closed + [s.workers[i].con], workers := s.workers[i := Leaving])
    case CountOut(i) => s.(busy := s.busy - 1, workers := s.workers[i := Looking])
    case Exit(i) => s.(workers := s.workers[i := Gone])
  }

  /** One worker for each variable; the variables hold anything. */
  function Init(locals: seq<nat>): State
  {
    State(Accepting, [], 0, seq(|locals|, _ => Looking), 0, locals, set c | c in locals, [], [], [], [], {}, {})
  }

  /** The step loses a connection: put_to_queue is not refused by a full queue and finds no node, or it cannot
      lock. */
  predicate Loses(s: State, step: Step, warnSize: nat)
  {
    step.Put? && (step.push == NoLock || (step.push == NoNode && s.used != warnSize))
  }

  // ------------------------------------------------------------------ the invariant

  /** 1 if the worker has connection c, 0 if not; the same for the listener. */
  function Has(w: Worker, c: nat): nat { if (w.Holding? || w.Serving?) && w.con == c then 1 else 0 }

  function Offers(l: Listener, c: nat): nat { if l.Offering? && l.con == c then 1 else 0 }

  /** How many workers have connection c. */
  function Hands(workers: seq<Worker>, c: nat): nat
  {
    if workers == [] then 0 else Has(workers[0], c) + Hands(workers[1..], c)
  }

  /** The workers between the add and the sub of usedservers. */
  function Counted(w: Worker): nat { if w.Serving? || w.Leaving? then 1 else 0 }

  function Count(workers: seq<Worker>): nat
  {
    if workers == [] then 0 else Counted(workers[0]) + Count(workers[1..])
  }

  /** In how many places connection c is: with the listener, in the queue, with a worker, closed. */
  function Places(s: State, c: nat): nat
  {
    Offers(s.listener, c) + multiset(s.queue)[c] + Hands(s.workers, c) + multiset(s.closed)[c]
  }

  /** Every connection that has arrived is in one place, and no other connection is anywhere. */
  ghost predicate Conserved(s: State) { forall c :: Places(s, c) == multiset(s.arrived)[c] }

  ghost predicate Once(s: State) { forall c :: multiset(s.arrived)[c] <= 1 }

  /** The elements of s that are not in out. */
  function Kept(s: seq<nat>, out: set<nat>): seq<nat>
  {
    if s == [] then []
    else Kept(s[..|s| - 1], out) + if s[|s| - 1] in out then [] else [s[|s| - 1]]
  }

  /** Connections leave the queue in the order in which they entered it, and that is the order of their
      arrival, without those that were dropped. */
  predicate InOrder(s: State)
  {
    && s.entered == s.taken + s.queue
    && match s.listener
       case Accepting => s.entered == Kept(s.arrived, s.dropped)
       case Offering(con) =>
         s.arrived != [] && s.arrived[|s.arrived| - 1] == con && con !in s.dropped
         && s.entered == Kept(s.arrived[..|s.arrived| - 1], s.dropped)
  }

  predicate KnownDrops(s: State) { forall c :: c in s.dropped ==> c in s.arrived }

  ghost predicate Good(s: State, warnSize: nat)
  {
    && Conserved(s) && Once(s) && InOrder(s) && KnownDrops(s)
    && s.used == |s.queue| <= warnSize && s.busy == Count(s.workers)
  }

  // ------------------------------------------------------------------ every step keeps it

  lemma {:induction false} HandsUpdate(workers: seq<Worker>, i: nat, w: Worker, c: nat)
    requires i < |workers|
    ensures Hands(workers[i := w], c) == Hands(workers, c) - Has(workers[i], c) + Has(w, c)
  {
    hide Has;
    if i == 0 {
      assert workers[0 := w][1..] == workers[1..];
    } else {
      HandsUpdate(workers[1..], i - 1, w, c);
      assert workers[i := w][1..] == workers[1..][i - 1 := w] && workers[i := w][0] == workers[0];
    }
  }

  lemma {:induction false} CountUpdate(workers: seq<Worker>, i: nat, w: Worker)
    requires i < |workers|
    ensures Count(workers[i := w]) == Count(workers) - Counted(workers[i]) + Counted(w)
  {
    hide Counted;
    if i == 0 {
      assert workers[0 := w][1..] == workers[1..];
    } else {
      CountUpdate(workers[1..], i - 1, w);
      assert workers[i := w][1..] == workers[1..][i - 1 := w] && workers[i := w][0] == workers[0];
    }
  }

  lemma Snoc(s: seq<nat>, x: nat, c: nat)
    ensures multiset(s + [x])[c] == multiset(s)[c] + if x == c then 1 else 0
  {
  }

  lemma Cons(s: seq<nat>, c: nat)
    requires s != []
    ensures multiset(s)[c] == multiset(s[1..])[c] + if s[0] == c then 1 else 0
  {
    assert s == [s[0]] + s[1..];
  }

  lemma {:induction false} KeptOther(s: seq<nat>, out: set<nat>, c: nat)
    requires c !in s
    ensures Kept(s, out + {c}) == Kept(s, out)
  {
    if s != [] {
      KeptOther(s[..|s| - 1], out, c);
    }
  }

  lemma AcceptOrder(s: State, con: nat, warnSize: nat)
    requires Once(s) && InOrder(s) && KnownDrops(s) && Enabled(s, Accept(con))
    ensures InOrder(Next(s, Accept(con), warnSize)) && KnownDrops(Next(s, Accept(con), warnSize)) && Once(Next(s, Accept(con), warnSize))
  {
    assert (s.arrived + [con])[..|s.arrived|] == s.arrived;
    forall c ensures multiset(s.arrived + [con])[c] <= 1 {
      Snoc(s.arrived, con, c);
    }
  }

  lemma PutOrder(s: State, push: Push, warnSize: nat)
    requires Once(s) && InOrder(s) && KnownDrops(s) && Enabled(s, Put(push)) && !Loses(s, Put(push), warnSize)
    ensures InOrder(Next(s, Put(push), warnSize)) && KnownDrops(Next(s, Put(push), warnSize)) && Once(Next(s, Put(push), warnSize))
  {
    LastOnce(s.arrived);
    KeptOther(s.arrived[..|s.arrived| - 1], s.dropped, s.listener.con);
  }

  lemma StepOrder(s: State, step: Step, warnSize: nat)
    requires Once(s) && InOrder(s) && KnownDrops(s) && s.used == |s.queue| && Enabled(s, step) && !Loses(s, step, warnSize)
    ensures InOrder(Next(s, step, warnSize)) && KnownDrops(Next(s, step, warnSize)) && Once(Next(s, step, warnSize))
  {
    hide Kept;
    match step {
      case Accept(con) => AcceptOrder(s, con, warnSize);
      case Put(push) => PutOrder(s, push, warnSize);
      case Get(i) =>
        if s.queue != [] {
          assert s.taken + s.queue == s.taken + [s.queue[0]] + s.queue[1..];
        }
      case _ =>
    }
  }

  lemma LastOnce(s: seq<nat>)
    requires s != [] && multiset(s)[s[|s| - 1]] <= 1
    ensures s[|s| - 1] !in s[..|s| - 1]
  {
    assert s == s[..|s| - 1] + [s[|s| - 1]];
    assert multiset(s) == multiset(s[..|s| - 1]) + multiset{s[|s| - 1]};
  }

  /** How a step changes the number of places a connection is in: only an accepted connection is new, only a
      losing step takes one away, and only a worker that is told of a connection the list does not have
      takes up again what it had before. */
  function Change(s: State, step: Step, warnSize: nat, c: nat): int
    requires Enabled(s, step)
  {
    match step
    case Accept(con) => if con == c then 1 else 0
    case Put(_) => if Loses(s, step, warnSize) && s.listener.con == c then -1 else 0
    case Get(i) => if s.used > 0 && s.queue == [] && s.locals[i] == c then 1 else 0
    case _ => 0
  }

  lemma StepPlaces(s: State, step: Step, warnSize: nat, c: nat)
    requires Enabled(s, step)
    ensures Places(Next(s, step, warnSize), c) == Places(s, c) + Change(s, step, warnSize, c)
  {
    hide Hands;
    match step {
      case Accept(con) =>
      case Put(push) => PutPlaces(s, push, warnSize, c);
      case Get(i) => GetPlaces(s, i, warnSize, c);
      case CountIn(i) => HandsUpdate(s.workers, i, Serving(s.workers[i].con), c);
      case Serve(i) =>
      case Close(i) =>
        HandsUpdate(s.workers, i, Leaving, c);
        Snoc(s.closed, s.workers[i].con, c);
      case CountOut(i) => HandsUpdate(s.workers, i, Looking, c);
      case Exit(i) => HandsUpdate(s.workers, i, Gone, c);
    }
  }

  lemma PutPlaces(s: State, push: Push, warnSize: nat, c: nat)
    requires Enabled(s, Put(push))
    ensures Places(Next(s, Put(push), warnSize), c) == Places(s, c) + Change(s, Put(push), warnSize, c)
  {
    hide Hands;
    Snoc(s.closed, s.listener.con, c);
    Snoc(s.queue, s.listener.con, c);
  }

  lemma GetPlaces(s: State, i: nat, warnSize: nat, c: nat)
    requires Enabled(s, Get(i))
    ensures Places(Next(s, Get(i), warnSize), c) == Places(s, c) + Change(s, Get(i), warnSize, c)
  {
    hide Hands;
    if s.queue != [] {
      HandsUpdate(s.workers, i, Holding(s.queue[0]), c);
      Cons(s.queue, c);
    } else {
      HandsUpdate(s.workers, i, Holding(s.locals[i]), c);
    }
  }

  lemma StepConserves(s: State, step: Step, warnSize: nat, c: nat)
    requires Places(s, c) == multiset(s.arrived)[c] && s.used == |s.queue| && Enabled(s, step) && !Loses(s, step, warnSize)
    ensures Places(Next(s, step, warnSize), c) == multiset(Next(s, step, warnSize).arrived)[c]
  {
    hide Places;
    StepPlaces(s, step, warnSize, c);
    if step.Accept? {
      Snoc(s.arrived, step.con, c);
    }
  }

  lemma StepCounts(s: State, step: Step, warnSize: nat)
    requires |s.queue| <= s.used <= warnSize && s.busy == Count(s.workers) && Enabled(s, step)
    ensures |Next(s, step, warnSize).queue| <= Next(s, step, warnSize).used <= warnSize
    ensures s.used == |s.queue| && !Loses(s, step, warnSize) ==> Next(s, step, warnSize).used == |Next(s, step, warnSize).queue|
    ensures |s.locals| == |s.workers| ==> |Next(s, step, warnSize).locals| == |Next(s, step, warnSize).workers|
    ensures Next(s, step, warnSize).busy == Count(Next(s, step, warnSize).workers)
  {
    hide Count;
    match step {
      case Accept(con) =>
      case Put(_) =>
      case Get(i) =>
        CountUpdate(s.workers, i, Holding(if s.queue == [] then s.locals[i] else s.queue[0]));
      case CountIn(i) => CountUpdate(s.workers, i, Serving(s.workers[i].con));
      case Serve(i) =>
      case Close(i) => CountUpdate(s.workers, i, Leaving);
      case CountOut(i) => CountUpdate(s.workers, i, Looking);
      case Exit(i) => CountUpdate(s.workers, i, Gone);
    }
  }

  // ------------------------------------------------------------------ what is lost stays lost

  /** What holds of every connection in every run: no connection comes from nowhere, a lost one is in no place
      and in no variable, and one that is offered is nowhere else. */
  predicate Fine(s: State, c: nat)
  {
    && (Places(s, c) > 0 || c in s.locals ==> c in s.arrived || c in s.junk)
    && (c in s.lost ==> c in s.arrived && Places(s, c) == 0 && c !in s.locals)
    && (s.listener == Offering(c) ==> c in s.arrived && c !in s.junk && Places(s, c) == 1 && c !in s.locals && c !in s.lost)
  }

  ghost predicate Sane(s: State, warnSize: nat)
  {
    && |s.locals| == |s.workers| && |s.queue| <= s.used <= warnSize && s.busy == Count(s.workers)
    && forall c :: Fine(s, c)
  }

  /** The places that make up the number. */
  lemma Parts(s: State, c: nat)
    ensures c in s.queue ==> Places(s, c) >= 1 + Offers(s.listener, c)
    ensures s.listener == Offering(c) ==> Places(s, c) >= 1
  {
  }

  lemma StepFine(s: State, step: Step, warnSize: nat, c: nat)
    requires Fine(s, c) && Enabled(s, step)
    ensures Fine(Next(s, step, warnSize), c)
  {
    hide Places;
    StepPlaces(s, step, warnSize, c);
    Parts(s, c);
    if step.Get? && s.used > 0 && s.queue != [] {
      assert s.queue[0] in s.queue;
    }
  }

  // ------------------------------------------------------------------ every run

  /** Any schedule: a step that is not possible when its turn comes does nothing. */
  function Run(s: State, steps: seq<Step>, warnSize: nat): State
  {
    if steps == [] then s
    else
      var before := Run(s, steps[..|steps| - 1], warnSize);
      var step := steps[|steps| - 1];
      if Enabled(before, step) then Next(before, step, warnSize) else before
  }

  /** Worker i takes its exit in the run. */
  ghost predicate Exits(s: State, steps: seq<Step>, warnSize: nat, i: nat)
  {
    exists k :: 0 <= k < |steps| && steps[k] == Exit(i) && Enabled(Run(s, steps[..k], warnSize), Exit(i))
  }

  lemma StepGone(s: State, step: Step, warnSize: nat, i: nat)
    requires Enabled(s, step) && i < |s.workers|
    ensures |Next(s, step, warnSize).workers| == |s.workers|
    ensures Next(s, step, warnSize).workers[i] == Gone <==> s.workers[i] == Gone || step == Exit(i)
  {
  }

  /** A worker goes round its loop for ever: it is gone if and only if it has taken its exit. */
  lemma {:induction false} GoneAfterExit(locals: seq<nat>, steps: seq<Step>, warnSize: nat, i: nat)
    requires i < |locals|
    ensures |Run(Init(locals), steps, warnSize).workers| == |locals|
    ensures Run(Init(locals), steps, warnSize).workers[i] == Gone <==> Exits(Init(locals), steps, warnSize, i)
    decreases |steps|
  {
    hide Next, Enabled;
    if steps != [] {
      var n := |steps| - 1;
      GoneAfterExit(locals, steps[..n], warnSize, i);
      var before := Run(Init(locals), steps[..n], warnSize);
      if Enabled(before, steps[n]) {
        StepGone(before, steps[n], warnSize, i);
      }
      ExitsSnoc(Init(locals), steps, warnSize, i);
    }
  }

  lemma ExitsSnoc(s: State, steps: seq<Step>, warnSize: nat, i: nat)
    requires steps != []
    ensures Exits(s, steps, warnSize, i) <==>
            || Exits(s, steps[..|steps| - 1], warnSize, i)
            || (steps[|steps| - 1] == Exit(i) && Enabled(Run(s, steps[..|steps| - 1], warnSize), Exit(i)))
  {
    hide Run, Enabled;
    var front := steps[..|steps| - 1];
    assert forall k :: 0 <= k < |front| ==> front[k] == steps[k] && front[..k] == steps[..k];
  }

  /** Every put_to_queue of the run that a full queue did not refuse found the mutex and a node. */
  predicate NoLoss(s: State, steps: seq<Step>, warnSize: nat)
  {
    if steps == [] then true
    else
      var before := Run(s, steps[..|steps| - 1], warnSize);
      var step := steps[|steps| - 1];
      NoLoss(s, steps[..|steps| - 1], warnSize) && (Enabled(before, step) ==> !Loses(before, step, warnSize))
  }

  lemma InitGood(locals: seq<nat>, warnSize: nat)
    ensures Good(Init(locals), warnSize) && Sane(Init(locals), warnSize)
  {
    hide Hands, Count;
    AllLooking(seq(|locals|, _ => Looking));
  }

  lemma {:induction false} AllLooking(workers: seq<Worker>)
    requires forall i :: 0 <= i < |workers| ==> workers[i] == Looking
    ensures Count(workers) == 0 && forall c :: Hands(workers, c) == 0
  {
    if workers != [] {
      AllLooking(workers[1..]);
    }
  }

  /** In every run, with losses or without. */
  lemma {:induction false} AlwaysSane(locals: seq<nat>, steps: seq<Step>, warnSize: nat)
    ensures Sane(Run(Init(locals), steps, warnSize), warnSize)
    ensures NoLoss(Init(locals), steps, warnSize) <==> Run(Init(locals), steps, warnSize).lost == {}
    decreases |steps|
  {
    hide Next, Enabled, Fine, Init, Loses;
    if steps == [] {
      InitGood(locals, warnSize);
      NothingLost(locals);
    } else {
      AlwaysSane(locals, steps[..|steps| - 1], warnSize);
      var before, step := Run(Init(locals), steps[..|steps| - 1], warnSize), steps[|steps| - 1];
      if Enabled(before, step) {
        forall c ensures Fine(Next(before, step, warnSize), c) {
          StepFine(before, step, warnSize, c);
        }
        StepCounts(before, step, warnSize);
        StepLost(before, step, warnSize);
      }
    }
  }

  lemma NothingLost(locals: seq<nat>)
    ensures Init(locals).lost == {}
  {
  }

  lemma StepLost(s: State, step: Step, warnSize: nat)
    requires Enabled(s, step)
    ensures Next(s, step, warnSize).lost == {} <==> s.lost == {} && !Loses(s, step, warnSize)
  {
    assert step.Put? ==> s.listener.con in s.lost + {s.listener.con};
  }

  lemma {:induction false} WithoutLoss(locals: seq<nat>, steps: seq<Step>, warnSize: nat)
    requires NoLoss(Init(locals), steps, warnSize)
    ensures Good(Run(Init(locals), steps, warnSize), warnSize)
    decreases |steps|
  {
    hide Next, Enabled, Places, InOrder, Init, Loses;
    if steps == [] {
      InitGood(locals, warnSize);
    } else {
      WithoutLoss(locals, steps[..|steps| - 1], warnSize);
      var before, step := Run(Init(locals), steps[..|steps| - 1], warnSize), steps[|steps| - 1];
      if Enabled(before, step) {
        forall c ensures Places(Next(before, step, warnSize), c) == multiset(Next(before, step, warnSize).arrived)[c] {
          StepConserves(before, step, warnSize, c);
        }
        StepOrder(before, step, warnSize);
        StepCounts(before, step, warnSize);
      }
    }
  }

  /** SAFETY, and when it holds. In every interleaving of listener and workers each accepted connection is in
      exactly one place if and only if every put_to_queue that was not refused found the mutex and a node;
      then also connections are taken in the order of their arrival, the count of the queue is its length
      and within the limit, and usedservers is the number of workers between its add and its sub. In every
      run the count is within the limit, and usedservers is right. */
  lemma Safety(locals: seq<nat>, steps: seq<Step>, warnSize: nat)
    ensures NoLoss(Init(locals), steps, warnSize) <==> Conserved(Run(Init(locals), steps, warnSize))
    ensures NoLoss(Init(locals), steps, warnSize) ==> Good(Run(Init(locals), steps, warnSize), warnSize)
    ensures Sane(Run(Init(locals), steps, warnSize), warnSize)
  {
    hide Run, NoLoss, Init, Places;
    AlwaysSane(locals, steps, warnSize);
    var s := Run(Init(locals), steps, warnSize);
    if NoLoss(Init(locals), steps, warnSize) {
      WithoutLoss(locals, steps, warnSize);
    } else {
      var c :| c in s.lost;
      assert Fine(s, c) && multiset(s.arrived)[c] >= 1;
    }
  }

  /** A connection that has arrived is in one place only. */
  lemma OnePlace(s: State, warnSize: nat, c: nat)
    requires Good(s, warnSize) && c in s.arrived
    ensures Places(s, c) == 1
  {
    assert multiset(s.arrived)[c] >= 1;
  }

  /** A worker that is not gone, and the listener, can always go on. */
  lemma NeverStuck(s: State, i: nat, con: nat)
    requires i < |s.workers| && |s.locals| == |s.workers| && con !in s.arrived && con !in s.junk
    ensures s.workers[i] == Looking ==> Enabled(s, Get(i)) && Enabled(s, Exit(i))
    ensures s.workers[i].Holding? ==> Enabled(s, CountIn(i))
    ensures s.workers[i].Serving? ==> Enabled(s, Serve(i)) && Enabled(s, Close(i))
    ensures s.workers[i] == Leaving ==> Enabled(s, CountOut(i))
    ensures if s.listener == Accepting then Enabled(s, Accept(con)) else forall push :: Enabled(s, Put(push))
  {
  }

  /** One connection from its arrival to its end: with an idle worker and an empty queue it is accepted, queued,
      taken, counted, served and closed, and then everything is as before. */
  lemma FromArrivalToEnd(s: State, con: nat, i: nat, warnSize: nat)
    requires s.listener == Accepting && s.queue == [] && s.used == 0 && warnSize > 0
    requires i < |s.workers| == |s.locals| && s.workers[i] == Looking && con !in s.arrived && con !in s.junk
    ensures var steps := [Accept(con), Put(Queued), Get(i), CountIn(i), Serve(i), Close(i), CountOut(i)];
            Run(s, steps, warnSize) == s.(arrived := s.arrived + [con], entered := s.entered + [con], taken := s.taken + [con],
                                          closed := s.closed + [con], locals := s.locals[i := con])
  {
    var a := [Accept(con)];
    var b := a + [Put(Queued)];
    var c := b + [Get(i)];
    var d := c + [CountIn(i)];
    var e := d + [Serve(i)];
    var f := e + [Close(i)];
    var g := f + [CountOut(i)];
    assert a[..0] == [] && b[..1] == a && c[..2] == b && d[..3] == c && e[..4] == d && f[..5] == e && g[..6] == f;
    var s1 := s.(listener := Offering(con), arrived := s.arrived + [con]);
    assert Run(s, a, warnSize) == s1;
    var s2 := s1.(listener := Accepting, queue := [con], used := 1, entered := s.entered + [con]);
    assert Run(s, b, warnSize) == s2;
    var s3 := s2.(queue := [], used := 0, taken := s.taken + [con], workers := s.workers[i := Holding(con)], locals := s.locals[i := con]);
    assert Run(s, c, warnSize) == s3;
    var s4 := s3.(busy := s.busy + 1, workers := s.workers[i := Serving(con)]);
    assert Run(s, d, warnSize) == s4;
    assert Run(s, e, warnSize) == s4;
    var s5 := s4.(closed := s.closed + [con], workers := s.workers[i := Leaving]);
    assert Run(s, f, warnSize) == s5;
    assert s.workers[i := Looking] == s.workers;
    assert g == [Accept(con), Put(Queued), Get(i), CountIn(i), Serve(i), Close(i), CountOut(i)];
  }

  /** What a failed push leads to: the connection is in no place, the empty queue counts one, and the worker
      that asks next is given what its own variable still holds. */
  lemma StaleConnection(s: State, con: nat, i: nat, warnSize: nat)
    requires s.listener == Offering(con) && s.used == 0 && s.queue == [] && warnSize > 0
    requires i < |s.workers| && s.workers[i] == Looking && i < |s.locals|
    ensures var t := Next(s, Put(NoNode), warnSize);
            && t.queue == [] && t.used == 1 && t.listener == Accepting && t.closed == s.closed
            && Next(t, Get(i), warnSize).workers[i] == Holding(s.locals[i]) && Next(t, Get(i), warnSize).used == 0
  {
  }

  // ------------------------------------------------------------------ with the real queue

  ghost predicate Mirrors(q: ConnectionQueue.Queue, s: State)
    reads q, q.list
  {
    q.Counted() && q.list.Contents() == s.queue && q.used == s.used
  }

  /** The listener offers its connection to the queue and closes it when the queue refuses. */
  method Offer(s: State, q: ConnectionQueue.Queue, locks: bool, room: bool) returns (t: State, push: Push)
    requires s.listener.Offering? && Mirrors(q, s)
    modifies q, q.list
    ensures push == if !locks then NoLock else if old(q.list.free) != [] || room then Queued else NoNode
    ensures t == Next(s, Put(push), q.warnSize) && Mirrors(q, t)
  {
    var con := s.listener.con;
    var r, found := q.Put(con, locks, room);
    push := if !locks then NoLock else if found then Queued else NoNode;
    if r == 0 {
      t := s.(listener := Accepting, closed := s.closed + [con], dropped := s.dropped + {con});
    } else if push != Queued {
      t := s.(listener := Accepting, used := q.used, lost := s.lost + {con});
    } else {
      t := s.(listener := Accepting, queue := s.queue + [con], used := q.used, entered := s.entered + [con]);
    }
  }

  /** A worker asks the queue for a connection, into its own variable. */
  method Fetch(s: State, i: nat, q: ConnectionQueue.Queue) returns (t: State)
    requires Enabled(s, Get(i)) && Mirrors(q, s)
    modifies q, q.list
    ensures t == Next(s, Get(i), q.warnSize) && Mirrors(q, t)
  {
    var r, con := q.Get(s.locals[i], true);
    if r == 0 {
      t := s;
    } else if s.queue == [] {
      t := s.(used := q.used, workers := s.workers[i := Holding(con)]);
    } else {
      assert s.queue == [con] + q.list.Contents();
      t := s.(queue := s.queue[1..], used := q.used, taken := s.taken + [con], workers := s.workers[i := Holding(con)],
              locals := s.locals[i := con]);
    }
  }

  /** The run takes the steps of the schedule, with the pushes the list answered. */
  predicate Follows(run: seq<Step>, steps: seq<Step>)
  {
    |run| <= |steps| && forall k :: 0 <= k < |run| ==> run[k] == steps[k] || (steps[k].Put? && run[k].Put?)
  }

  /** The mutex and a node were there in the first n steps. */
  predicate Served(steps: seq<Step>, rooms: seq<bool>, n: nat)
  {
    n <= |steps| && n <= |rooms| && forall k :: 0 <= k < n ==> rooms[k] && steps[k] != Put(NoLock)
  }

  /** Any step but Put. */
  method Other(s: State, step: Step, q: ConnectionQueue.Queue) returns (t: State)
    requires Enabled(s, step) && !step.Put? && Mirrors(q, s)
    modifies q, q.list
    ensures t == Next(s, step, q.warnSize) && Mirrors(q, t)
  {
    if step.Get? {
      t := Fetch(s, step.i, q);
    } else {
      t := Next(s, step, q.warnSize);
    }
  }

  /** One step with the real queue, and the step of the model it was. */
  method PlayStep(s: State, step: Step, room: bool, q: ConnectionQueue.Queue) returns (t: State, actual: Step)
    requires Mirrors(q, s)
    modifies q, q.list
    ensures Mirrors(q, t) && t == if Enabled(s, actual) then Next(s, actual, q.warnSize) else s
    ensures actual == step || (step.Put? && actual.Put?)
    ensures room && step != Put(NoLock) && actual.Put? && Enabled(s, actual) ==> actual == Put(Queued)
  {
    hide Next;
    t, actual := s, step;
    if step.Put? {
      if s.listener.Offering? {
        var push;
        t, push := Offer(s, q, step.push != NoLock, room);
        actual := Put(push);
      }
    } else if Enabled(s, step) {
      t := Other(s, step, q);
    }
  }

  lemma NoSteps(steps: seq<Step>)
    ensures Follows([], steps)
  {
  }

  lemma FollowsOn(run: seq<Step>, step: Step, steps: seq<Step>)
    requires Follows(run, steps) && |run| < |steps|
    requires step == steps[|run|] || (steps[|run|].Put? && step.Put?)
    ensures Follows(run + [step], steps)
  {
  }

  lemma ServedOn(steps: seq<Step>, rooms: seq<bool>, n: nat)
    requires n < |steps| && n < |rooms|
    ensures Served(steps, rooms, n + 1) <==> Served(steps, rooms, n) && rooms[n] && steps[n] != Put(NoLock)
  {
  }

  lemma EmptyRun(locals: seq<nat>, warnSize: nat)
    ensures Run(Init(locals), [], warnSize) == Init(locals) && NoLoss(Init(locals), [], warnSize)
  {
  }

  lemma Empty(locals: seq<nat>)
    ensures Init(locals).queue == [] && Init(locals).used == 0
  {
  }

  lemma Extended(locals: seq<nat>, run: seq<Step>, step: Step, before: State, after: State, warnSize: nat)
    requires before == Run(Init(locals), run, warnSize)
    requires after == if Enabled(before, step) then Next(before, step, warnSize) else before
    ensures Run(Init(locals), run + [step], warnSize) == after
    ensures NoLoss(Init(locals), run, warnSize) && !(step.Put? && step.push != Queued && Enabled(before, step)) ==>
              NoLoss(Init(locals), run + [step], warnSize)
  {
    hide Next, Enabled, Init;
    assert (run + [step])[..|run|] == run && (run + [step])[|run|] == step;
  }

  /** REFINEMENT: with the linked list of the server in place of the sequence, every schedule gives a run of
      the model. rooms says for every step whether the list's allocator could serve a node; the pushes of the
      run are what the list then answers. */
  method Play(locals: seq<nat>, steps: seq<Step>, rooms: seq<bool>, warnSize: nat) returns (s: State, run: seq<Step>)
    requires |rooms| == |steps|
    ensures s == Run(Init(locals), run, warnSize) && |run| == |steps| && Follows(run, steps)
    ensures Served(steps, rooms, |steps|) ==> NoLoss(Init(locals), run, warnSize)
  {
    hide Next, Enabled, Init, Run, NoLoss, Follows, Served;
    EmptyRun(locals, warnSize);
    var q := new ConnectionQueue.Queue(warnSize);
    s, run := Init(locals), [];
    Empty(locals);
    assert Follows(run, steps) by { NoSteps(steps); }
    for k := 0 to |steps|
      invariant fresh(q) && fresh(q.list) && q.warnSize == warnSize && Mirrors(q, s)
      invariant |run| == k && s == Run(Init(locals), run, warnSize) && Follows(run, steps)
      invariant Served(steps, rooms, k) ==> NoLoss(Init(locals), run, warnSize)
    {
      var before, step := s, steps[k];
      s, step := PlayStep(s, steps[k], rooms[k], q);
      Extended(locals, run, step, before, s, warnSize);
      FollowsOn(run, step, steps);
      ServedOn(steps, rooms, k);
      run := run + [step];
    }
  }
}
