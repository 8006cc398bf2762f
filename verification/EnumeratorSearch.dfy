/** The enumeration worklist itself: queue, visited set, corpus, counters and budget. */
module EnumeratorSearch {
  import opened Prelude
  import opened MarketTypes
  import opened MarketInvariants
  import opened FiniteState
  import opened MarketAdapter
  import opened MarketRefinement
  import opened MarketErasure
  import opened Enumerator

  datatype Entry = Entry(state: AbstractState, step: StepInput, response: Response)
  datatype CorpusHash = CorpusHash(corpus: seq<Entry>)

  datatype Tally = Tally(accepts: nat, rejects: nat, failures: nat, reasons: map<RejectCode, nat>)

  datatype EnumerationResult = EnumerationResult(
    reachableStates: nat,
    commandVariants: nat,
    timeClasses: nat,
    totalCases: nat,
    enabledTransitions: nat,
    tally: Tally,
    corpusHash: CorpusHash,
    searchComplete: bool,
    budgetExhausted: bool)

  function CountOne(t: Tally, r: Response): Tally {
    match r
    case Transition(failure, _, _) =>
      if failure.None? then t.(accepts := t.accepts + 1) else t.(failures := t.failures + 1)
    case Refusal(reason, _) =>
      t.(rejects := t.rejects + 1,
         reasons := t.reasons[reason := (if reason in t.reasons then t.reasons[reason] else 0) + 1])
    case _ => t
  }

  function TallyOf(corpus: seq<Entry>): Tally {
    if corpus == [] then Tally(0, 0, 0, map[])
    else CountOne(TallyOf(corpus[..|corpus| - 1]), corpus[|corpus| - 1].response)
  }

  lemma TallyAppend(corpus: seq<Entry>, e: Entry)
    ensures TallyOf(corpus + [e]) == CountOne(TallyOf(corpus), e.response)
  {
    assert (corpus + [e])[..|corpus + [e]| - 1] == corpus;
  }

  predicate Decisive(r: Response) { r.Transition? || r.Refusal? }

  function CountReason(corpus: seq<Entry>, reason: RejectCode): nat {
    if corpus == [] then 0
    else
      var last := corpus[|corpus| - 1].response;
      CountReason(corpus[..|corpus| - 1], reason) + (if last.Refusal? && last.reason == reason then 1 else 0)
  }

  predicate Accepting(r: Response) { r.Transition? && r.failure == None }

  predicate Failing(r: Response) { r.Transition? && r.failure.Some? }

  predicate Refusing(r: Response) { r.Refusal? }

  /** The positions of the entries answered like this. */
  ghost function Where(corpus: seq<Entry>, like: Response -> bool): set<nat> {
    set k: nat | k < |corpus| && like(corpus[k].response)
  }

  lemma WhereGrows(corpus: seq<Entry>, like: Response -> bool)
    requires corpus != []
    ensures var n := |corpus| - 1;
      |Where(corpus, like)| == |Where(corpus[..n], like)| + (if like(corpus[n].response) then 1 else 0)
  {
    var n := |corpus| - 1;
    assert Where(corpus, like) == Where(corpus[..n], like) + (if like(corpus[n].response) then {n} else {});
  }

  /** Each counter is the number of its entries. */
  lemma {:induction false} TallyCounts(corpus: seq<Entry>)
    ensures TallyOf(corpus).accepts == |Where(corpus, Accepting)|
    ensures TallyOf(corpus).failures == |Where(corpus, Failing)|
    ensures TallyOf(corpus).rejects == |Where(corpus, Refusing)|
  {
    if corpus == [] {
      assert Where(corpus, Accepting) == Where(corpus, Failing) == Where(corpus, Refusing) == {};
    } else {
      TallyCounts(corpus[..|corpus| - 1]);
      WhereGrows(corpus, Accepting);
      WhereGrows(corpus, Failing);
      WhereGrows(corpus, Refusing);
      hide Where;
    }
  }

  /** The counters add up to the corpus, and each reason's counter to its refusals. */
  lemma {:induction false} TallyExact(corpus: seq<Entry>)
    requires forall k | 0 <= k < |corpus| :: Decisive(corpus[k].response)
    ensures var t := TallyOf(corpus); t.accepts + t.rejects + t.failures == |corpus|
    ensures forall reason ::
      CountReason(corpus, reason) == (if reason in TallyOf(corpus).reasons then TallyOf(corpus).reasons[reason] else 0)
  {
    if corpus != [] { TallyExact(corpus[..|corpus| - 1]); }
  }

  // ----- What the corpus holds --------------------------------------------------------------------------

  /** The first n cases of a state, answered by the adapter. */
  function Row(p: Profile, key: PublicKey, a: AbstractState, n: nat): (row: seq<Entry>)
    requires Usable(p) && n <= CASES
    ensures |row| == n
  {
    seq(n, k requires 0 <= k < n =>
      VariantsWellFormed(k / 5); Entry(a, Case(k), AdapterAnswer(p, a, Case(k), key)))
  }

  function Corpus(p: Profile, key: PublicKey, order: seq<AbstractState>): (corpus: seq<Entry>)
    requires Usable(p)
    ensures |corpus| == |order| * CASES
  {
    if order == [] then []
    else Corpus(p, key, order[..|order| - 1]) + Row(p, key, order[|order| - 1], CASES)
  }

  lemma RowStep(p: Profile, key: PublicKey, a: AbstractState, n: nat)
    requires Usable(p) && n < CASES
    ensures WellFormedCommand(Case(n).command)
    ensures Row(p, key, a, n + 1) == Row(p, key, a, n) + [Entry(a, Case(n), AdapterAnswer(p, a, Case(n), key))]
  {
    hide AdapterAnswer, ClassEpoch, ValidRef, WellFormedCommand;
    VariantsWellFormed(n / 5);
    hide Case;
  }

  // ----- The search state ---------------------------------------------------------------------------------

  datatype Search = Search(
    visited: set<AbstractState>,
    queue: seq<AbstractState>,
    corpus: seq<Entry>,
    tally: Tally,
    exhausted: bool)

  /** Every visited state is reachable and is exactly once expanded, in work or queued. */
  ghost predicate Ledgered(p: Profile, key: PublicKey, max: nat, all: seq<AbstractState>, s: Search)
    requires Usable(p)
  {
    && Distinct(all)
    && (forall x :: x in s.visited <==> x in all)
    && |s.visited| == |all| <= max
    && INITIAL_ABSTRACT_STATE in s.visited
    && (forall x | x in s.visited :: Reachable(p, key, x))
    && s.tally == TallyOf(s.corpus)
    && (forall k | 0 <= k < |s.corpus| :: Decisive(s.corpus[k].response))
  }

  ghost predicate Expanded(p: Profile, key: PublicKey, a: AbstractState, n: nat, visited: set<AbstractState>)
    requires Usable(p) && n <= CASES
  {
    forall k | 0 <= k < n :: WellFormedCommand(Case(k).command) && AdapterNext(p, a, Case(k), key) in visited
  }

  ghost predicate AllExpanded(p: Profile, key: PublicKey, order: seq<AbstractState>, visited: set<AbstractState>)
    requires Usable(p)
  {
    forall j | 0 <= j < |order| :: Expanded(p, key, order[j], CASES, visited)
  }

  /** Between two states: `order` is done, the queue remains. */
  ghost predicate Between(p: Profile, key: PublicKey, max: nat, order: seq<AbstractState>, s: Search)
    requires Usable(p)
  {
    && Ledgered(p, key, max, order + s.queue, s)
    && AllExpanded(p, key, order, s.visited)
    && s.corpus == Corpus(p, key, order)
    && !s.exhausted
  }

  /** Inside the expansion of `a`, with its first n cases done. */
  ghost predicate Within(p: Profile, key: PublicKey, max: nat, order: seq<AbstractState>, a: AbstractState, n: nat, s: Search)
    requires Usable(p) && n <= CASES
  {
    && Ledgered(p, key, max, order + [a] + s.queue, s)
    && AllExpanded(p, key, order, s.visited)
    && Expanded(p, key, a, n, s.visited)
    && s.corpus == Corpus(p, key, order) + Row(p, key, a, n)
    && !s.exhausted
  }

  /** The budget stopped the search: it is full and some reachable state is missing. */
  ghost predicate Stopped(p: Profile, key: PublicKey, max: nat, s: Search)
    requires Usable(p)
  {
    && s.exhausted
    && |s.visited| == max
    && (forall x | x in s.visited :: Reachable(p, key, x))
    && (exists x :: x !in s.visited && Reachable(p, key, x))
    && s.tally == TallyOf(s.corpus)
    && (forall k | 0 <= k < |s.corpus| :: Decisive(s.corpus[k].response))
  }

  lemma GrowKeepsExpanded(p: Profile, key: PublicKey, a: AbstractState, n: nat, visited: set<AbstractState>, more: set<AbstractState>)
    requires Usable(p) && n <= CASES && Expanded(p, key, a, n, visited) && visited <= more
    ensures Expanded(p, key, a, n, more)
  {
    hide AdapterNext, WellFormedCommand, ClassEpoch, ValidRef, Case;
  }

  lemma GrowKeepsAll(p: Profile, key: PublicKey, order: seq<AbstractState>, visited: set<AbstractState>, more: set<AbstractState>)
    requires Usable(p) && AllExpanded(p, key, order, visited) && visited <= more
    ensures AllExpanded(p, key, order, more)
  {
    forall j | 0 <= j < |order| ensures Expanded(p, key, order[j], CASES, more) {
      GrowKeepsExpanded(p, key, order[j], CASES, visited, more);
    }
  }

  lemma ExpandedStep(p: Profile, key: PublicKey, a: AbstractState, n: nat, visited: set<AbstractState>)
    requires Usable(p) && n < CASES && Expanded(p, key, a, n, visited) && WellFormedCommand(Case(n).command)
    requires AdapterNext(p, a, Case(n), key) in visited
    ensures Expanded(p, key, a, n + 1, visited)
  {
    hide AdapterNext, WellFormedCommand, ClassEpoch, ValidRef, Case;
  }

  /** Recording an answer and visiting its successor keeps the ledger. */
  lemma LedgeredStep(p: Profile, key: PublicKey, max: nat, all: seq<AbstractState>, s: Search, more: seq<AbstractState>, t: Search,
                     x: AbstractState, e: Entry)
    requires Usable(p) && Ledgered(p, key, max, all, s) && Reachable(p, key, x) && Decisive(e.response)
    requires t.corpus == s.corpus + [e] && t.tally == CountOne(s.tally, e.response)
    requires if x in s.visited then t.visited == s.visited && more == all
             else |s.visited| < max && t.visited == s.visited + {x} && more == all + [x]
    ensures Ledgered(p, key, max, more, t)
  {
    TallyAppend(s.corpus, e);
    hide Reachable, ClassEpoch, ValidRef, TallyOf, CountOne, Decisive;
  }

  /** One more case: its answer recorded, its successor, if new, visited and queued. */
  lemma CaseDone(p: Profile, key: PublicKey, max: nat, order: seq<AbstractState>, a: AbstractState, n: nat, s: Search, t: Search)
    requires Usable(p) && n < CASES && Within(p, key, max, order, a, n, s) && WellFormedCommand(Case(n).command)
    requires var r := AdapterAnswer(p, a, Case(n), key);
      && Decisive(r)
      && t.corpus == s.corpus + [Entry(a, Case(n), r)] && t.tally == CountOne(s.tally, r) && !t.exhausted
    requires var x := AdapterNext(p, a, Case(n), key);
      && Reachable(p, key, x)
      && (if x in s.visited then t.visited == s.visited && t.queue == s.queue
          else |s.visited| < max && t.visited == s.visited + {x} && t.queue == s.queue + [x])
    ensures Within(p, key, max, order, a, n + 1, t)
  {
    hide AdapterNext, AdapterAnswer, WellFormedCommand, Reachable, Case, ClassEpoch, ValidRef, Corpus, Row, CountOne, TallyOf;
    hide Decisive, Usable;
    var x := AdapterNext(p, a, Case(n), key);
    var all, more := order + [a] + s.queue, order + [a] + t.queue;
    assert x in t.visited && s.visited <= t.visited;
    if x !in s.visited { assert more == all + [x]; }
    hide AllExpanded, Expanded, Ledgered;
    RowStep(p, key, a, n);
    LedgeredStep(p, key, max, all, s, more, t, x, Entry(a, Case(n), AdapterAnswer(p, a, Case(n), key)));
    GrowKeepsAll(p, key, order, s.visited, t.visited);
    GrowKeepsExpanded(p, key, a, n, s.visited, t.visited);
    ExpandedStep(p, key, a, n, t.visited);
  }

  // ----- The worklist ------------------------------------------------------------------------------------

  /** One case of the loop body; None stands for the exceptions the source would raise. */
  method ExpandCase(p: Profile, key: PublicKey, max: nat, ghost order: seq<AbstractState>, a: AbstractState, n: nat, s: Search)
    returns (t: Option<Search>)
    requires Usable(p) && KeyRef(key) == p.verifierRef
    requires n < CASES && Within(p, key, max, order, a, n, s)
    ensures t.Some? && (if t.value.exhausted then Stopped(p, key, max, t.value)
                        else Within(p, key, max, order, a, n + 1, t.value))
    ensures |s.visited| <= |t.value.visited| && (|s.visited| == |t.value.visited| ==> t.value.queue == s.queue)
  {
    hide AdapterNext, AdapterAnswer, WellFormedCommand, Reachable, Case, ClassEpoch, ValidRef, Corpus, Row, CountOne, TallyOf;
    hide Usable, AllExpanded, Expanded, ReceiptIssued;
    RowStep(p, key, a, n);
    var step := Case(n);
    var answer := AdapterAnswer(p, a, step, key);
    assert a in order + [a] + s.queue;
    ReachableAnswers(p, key, a, step);
    StepReachable(p, key, a, step);
    if ReceiptIssued(p, a, step, key) && BadEvidence(answer) { return None; }
    var entry := Entry(a, step, answer);
    var next := s.(corpus := s.corpus + [entry], tally := CountOne(s.tally, answer));
    if !Decisive(answer) { return None; }
    TallyAppend(s.corpus, entry);
    AnswerNext(p, key, a, step);
    if answer.Transition? && answer.post !in next.visited {
      if |next.visited| >= max {
        return Some(next.(exhausted := true));
      }
      next := next.(visited := next.visited + {answer.post}, queue := next.queue + [answer.post]);
    }
    hide Decisive, Ledgered;
    CaseDone(p, key, max, order, a, n, s, next);
    return Some(next);
  }

  lemma AnswerNext(p: Profile, key: PublicKey, a: AbstractState, i: StepInput)
    requires Usable(p) && WellFormedCommand(i.command)
    ensures var r := AdapterAnswer(p, a, i, key);
      AdapterNext(p, a, i, key) == if r.Transition? then r.post else a
  {
    hide AdapterAnswer, ClassEpoch, ValidRef, WellFormedCommand, Usable;
  }

  lemma RowStart(p: Profile, key: PublicKey, max: nat, order: seq<AbstractState>, a: AbstractState, s: Search, t: Search)
    requires Usable(p) && Between(p, key, max, order, s) && s.queue == [a] + t.queue && t == s.(queue := t.queue)
    ensures Within(p, key, max, order, a, 0, t)
  {
    hide AdapterNext, AdapterAnswer, WellFormedCommand, Reachable, Case, ClassEpoch, ValidRef, Corpus, TallyOf, Usable, Decisive;
    assert order + s.queue == order + [a] + t.queue;
  }

  lemma RowEnd(p: Profile, key: PublicKey, max: nat, order: seq<AbstractState>, a: AbstractState, s: Search)
    requires Usable(p) && Within(p, key, max, order, a, CASES, s)
    ensures Between(p, key, max, order + [a], s) && !s.exhausted
  {
    hide AdapterNext, AdapterAnswer, WellFormedCommand, Reachable, Case, ClassEpoch, ValidRef, Row, TallyOf, Usable, Decisive, Expanded;
    assert (order + [a])[..|order|] == order;
    hide Corpus;
  }

  /** All cases of one state: every variant at every time class, until the budget stops it. */
  method ExpandState(p: Profile, key: PublicKey, max: nat, ghost order: seq<AbstractState>, a: AbstractState, s: Search)
    returns (t: Option<Search>)
    requires Usable(p) && KeyRef(key) == p.verifierRef
    requires Within(p, key, max, order, a, 0, s)
    ensures t.Some? && (if t.value.exhausted then Stopped(p, key, max, t.value)
                        else Between(p, key, max, order + [a], t.value))
    ensures |s.visited| <= |t.value.visited| && (|s.visited| == |t.value.visited| ==> t.value.queue == s.queue)
  {
    hide Usable, Within, Between, Stopped;
    var u := s;
    for v := 0 to |COMMAND_VARIANTS|
      invariant Within(p, key, max, order, a, 5 * v, u)
      invariant |s.visited| <= |u.visited| && (|s.visited| == |u.visited| ==> u.queue == s.queue)
    {
      for c := 0 to |TIME_CLASSES|
        invariant Within(p, key, max, order, a, 5 * v + c, u)
        invariant |s.visited| <= |u.visited| && (|s.visited| == |u.visited| ==> u.queue == s.queue)
      {
        var next := ExpandCase(p, key, max, order, a, 5 * v + c, u);
        if next.None? { return None; }
        u := next.value;
        if u.exhausted { return Some(u); }
      }
    }
    RowEnd(p, key, max, order, a, u);
    return Some(u);
  }

  /** A finite set holding every reachable state. */
  ghost predicate Covers(p: Profile, key: PublicKey, states: set<AbstractState>)
    requires Usable(p)
  {
    forall a | Reachable(p, key, a) :: a in states
  }

  lemma InitialBetween(p: Profile, key: PublicKey, max: nat, s: Search)
    requires Usable(p) && max >= 1
    requires s == Search({INITIAL_ABSTRACT_STATE}, [INITIAL_ABSTRACT_STATE], [], Tally(0, 0, 0, map[]), false)
    ensures Between(p, key, max, [], s)
  {
    hide AdapterNext, AdapterAnswer, WellFormedCommand, Reachable, Case, ClassEpoch, ValidRef, Row, Usable, Decisive, Expanded;
    InitialReachable(p, key);
    assert [] + s.queue == s.queue;
  }

  /** When the queue runs dry the visited states are the reachable ones. */
  lemma DryQueueIsComplete(p: Profile, key: PublicKey, max: nat, order: seq<AbstractState>, s: Search)
    requires Usable(p) && Between(p, key, max, order, s) && s.queue == []
    ensures Closed(p, key, s.visited)
    ensures forall a :: Reachable(p, key, a) <==> a in s.visited
    ensures |order| == |s.visited| <= max
    ensures Distinct(order) && forall a :: a in order <==> a in s.visited
    ensures s.corpus == Corpus(p, key, order)
  {
    hide AdapterNext, AdapterAnswer, Case, ClassEpoch, ValidRef, Row, Decisive, WellFormedCommand, AdapterRun, Corpus, TallyOf;
    assert order + s.queue == order;
    forall a, i: StepInput | a in s.visited && WellFormedCommand(i.command) ensures AdapterNext(p, a, i, key) in s.visited {
      var j :| 0 <= j < |order| && order[j] == a;
      assert Expanded(p, key, order[j], CASES, s.visited);
      var n := CasesComplete(i);
    }
    forall a | Reachable(p, key, a) ensures a in s.visited {
      var steps :| WellFormedSteps(steps) && AdapterRun(p, steps, key) == a;
      ClosedHoldsRun(p, key, s.visited, steps);
    }
  }

  /** A stopped search shows that no set within the budget holds every reachable state. */
  lemma StoppedMeansTooMany(p: Profile, key: PublicKey, max: nat, s: Search, states: set<AbstractState>)
    requires Usable(p) && Stopped(p, key, max, s) && Covers(p, key, states)
    ensures |states| > max
  {
    hide Reachable, Usable, Decisive, TallyOf;
    var x :| x !in s.visited && Reachable(p, key, x);
    SubsetSize(s.visited + {x}, states);
  }

  function Result(s: Search): EnumerationResult {
    EnumerationResult(|s.visited|, |COMMAND_VARIANTS|, |TIME_CLASSES|, |s.corpus|, s.tally.accepts + s.tally.failures,
                      s.tally, CorpusHash(s.corpus), !s.exhausted, s.exhausted)
  }

  /** What a finished enumeration says about the whole transition system. */
  ghost predicate Complete(p: Profile, key: PublicKey, order: seq<AbstractState>, r: EnumerationResult)
    requires Usable(p)
  {
    && Distinct(order) && r.reachableStates == |order|
    && (forall a :: Reachable(p, key, a) <==> a in order)
    && r.corpusHash == CorpusHash(Corpus(p, key, order))
    && r.totalCases == r.reachableStates * r.commandVariants * r.timeClasses
  }

  /** The counters add up, and the search is complete exactly when the budget covers some set
      that holds all reachable states; then it has visited exactly those. */
  ghost predicate Answers(p: Profile, key: PublicKey, max: int, order: seq<AbstractState>, r: EnumerationResult)
    requires Usable(p)
  {
    && r.reachableStates <= max
    && r.searchComplete == !r.budgetExhausted
    && r.enabledTransitions == r.tally.accepts + r.tally.failures
    && r.tally == TallyOf(r.corpusHash.corpus) && r.totalCases == |r.corpusHash.corpus|
    && r.tally.accepts == |Where(r.corpusHash.corpus, Accepting)|
    && r.tally.failures == |Where(r.corpusHash.corpus, Failing)|
    && r.tally.rejects == |Where(r.corpusHash.corpus, Refusing)|
    && r.tally.accepts + r.tally.rejects + r.tally.failures == r.totalCases
    && (r.searchComplete ==> Complete(p, key, order, r))
    && (r.searchComplete <==> exists states :: Covers(p, key, states) && |states| <= max)
  }

  method EnumerateAllTransitions(p: Profile, key: PublicKey, max: int)
    returns (result: Option<EnumerationResult>, ghost order: seq<AbstractState>)
    requires Usable(p)
    ensures result.Some? <==> max >= 1 && KeyRef(key) == p.verifierRef
    ensures result.Some? ==> Answers(p, key, max, order, result.value)
  {
    order := [];
    if max < 1 { return None, order; }
    if KeyRef(key) != p.verifierRef { return None, order; }
    hide Usable, Within, Stopped, Reachable, Answers;
    var s := Search({INITIAL_ABSTRACT_STATE}, [INITIAL_ABSTRACT_STATE], [], Tally(0, 0, 0, map[]), false);
    InitialBetween(p, key, max, s);
    hide Between;
    while s.queue != []
      invariant Between(p, key, max, order, s)
      decreases max - |s.visited|, |s.queue|
    {
      BetweenBounds(p, key, max, order, s);
      var a := s.queue[0];
      var popped := s.(queue := s.queue[1..]);
      assert s.queue == [a] + popped.queue;
      RowStart(p, key, max, order, a, s, popped);
      var t := ExpandState(p, key, max, order, a, popped);
      if t.None? { return None, order; }
      if t.value.exhausted {
        StoppedResult(p, key, max, order, t.value);
        return Some(Result(t.value)), order;
      }
      BetweenBounds(p, key, max, order + [a], t.value);
      order := order + [a];
      s := t.value;
    }
    CompleteResult(p, key, max, order, s);
    result := Some(Result(s));
  }

  lemma BetweenBounds(p: Profile, key: PublicKey, max: nat, order: seq<AbstractState>, s: Search)
    requires Usable(p) && Between(p, key, max, order, s)
    ensures |s.visited| <= max
  {
    hide Reachable, Usable, AllExpanded, Decisive, Corpus, TallyOf;
  }

  lemma StoppedResult(p: Profile, key: PublicKey, max: nat, order: seq<AbstractState>, s: Search)
    requires Usable(p) && Stopped(p, key, max, s)
    ensures Answers(p, key, max, order, Result(s))
  {
    hide Reachable, Usable, Covers;
    TallyExact(s.corpus);
    TallyCounts(s.corpus);
    hide Where;
    forall states | Covers(p, key, states) ensures |states| > max { StoppedMeansTooMany(p, key, max, s, states); }
  }

  lemma CompleteResult(p: Profile, key: PublicKey, max: nat, order: seq<AbstractState>, s: Search)
    requires Usable(p) && Between(p, key, max, order, s) && s.queue == []
    ensures Answers(p, key, max, order, Result(s))
  {
    hide Reachable, Usable, AllExpanded, Expanded, Row, AdapterNext, AdapterAnswer, Closed;
    DryQueueIsComplete(p, key, max, order, s);
    TallyExact(s.corpus);
    TallyCounts(s.corpus);
    hide Corpus, Where;
  }
}
