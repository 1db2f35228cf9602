// Gets that overlap: each is a sequence of steps, its RPC in the middle, and any
// number of them interleave with initialisation and shutdown.
module ConcurrentGets {
  import opened VenueTypes
  import opened LastKnownGood

  datatype Phase<V> =
    | Asking                         // initialised, RPC under way
    | Committing(value: V)           // response received, cache still to update
    | FallingBack(initialized: bool) // no fresh value, cache still to consult

  datatype Call<V> = Call(account: string, phase: Phase<V>)

  /** A value some response carried for a request for the account. */
  datatype Response<V> = Response(account: string, value: V)

  datatype Given<V> = Given(account: string, result: Result<V>)

  datatype Bridge<V> = Bridge(
    live: bool,
    cache: map<string, V>,
    calls: map<nat, Call<V>>,
    responses: seq<Response<V>>,   // every successful response so far
    commits: seq<Response<V>>,     // every cache update so far
    answers: seq<Given<V>>)        // every answer given so far

  datatype Step<V> =
    | Initialize
    | Shutdown
    | Start(call: nat, account: string)
    | Reply(call: nat, outcome: Rpc<V>)
    | Finish(call: nat)

  /** What the bridge is configured with and which bridge it is. */
  datatype Setup = Setup(usable: bool, tellsMissing: bool, messages: Messages)

  function Fresh<V>(): Bridge<V> {
    Bridge(false, map[], map[], [], [], [])
  }

  function ReplyTo<V>(s: Setup, b: Bridge<V>, c: nat, outcome: Rpc<V>): Bridge<V>
    requires c in b.calls
  {
    var account := b.calls[c].account;
    match outcome
    case Delivered(v) =>
      b.(calls := b.calls[c := Call(account, Committing(v))], responses := b.responses + [Response(account, v)])
    case Missing =>
      if s.tellsMissing
      then b.(calls := b.calls - {c},
              answers := b.answers + [Given(account, Result(NotFound, s.messages.missing, None))])
      else b.(calls := b.calls[c := Call(account, FallingBack(true))])
    case Failed =>
      b.(calls := b.calls[c := Call(account, FallingBack(true))])
  }

  function Fallback<V>(s: Setup, b: Bridge<V>, account: string, initialized: bool): Result<V> {
    if account in b.cache then Result(Success, "", Some(b.cache[account]))
    else if initialized then Result(Timeout, s.messages.failed, None)
    else Result(NotInitialized, s.messages.unavailable, None)
  }

  function FinishCall<V>(s: Setup, b: Bridge<V>, c: nat): Bridge<V>
    requires c in b.calls
  {
    var account := b.calls[c].account;
    match b.calls[c].phase
    case Asking => b
    case Committing(v) =>
      b.(cache := b.cache[account := v], commits := b.commits + [Response(account, v)], calls := b.calls - {c},
         answers := b.answers + [Given(account, Result(Success, "", Some(v)))])
    case FallingBack(initialized) =>
      b.(calls := b.calls - {c}, answers := b.answers + [Given(account, Fallback(s, b, account, initialized))])
  }

  /** One step; an impossible one leaves the bridge as it is. */
  function Apply<V>(s: Setup, b: Bridge<V>, step: Step<V>): Bridge<V> {
    match step
    case Initialize => b.(live := b.live || s.usable)
    case Shutdown => b.(live := false)
    case Start(c, a) =>
      if c in b.calls then b
      else b.(calls := b.calls[c := Call(a, if b.live then Asking else FallingBack(false))])
    case Reply(c, outcome) =>
      if c in b.calls && b.calls[c].phase.Asking? then ReplyTo(s, b, c, outcome) else b
    case Finish(c) =>
      if c in b.calls then FinishCall(s, b, c) else b
  }

  function Exec<V>(s: Setup, b: Bridge<V>, run: seq<Step<V>>): Bridge<V>
    decreases |run|
  {
    if run == [] then b else Exec(s, Apply(s, b, run[0]), run[1..])
  }

  /** The value committed last for the account. */
  function LastCommit<V>(commits: seq<Response<V>>, account: string): Option<V> {
    if commits == [] then None
    else if commits[|commits| - 1].account == account then Some(commits[|commits| - 1].value)
    else LastCommit(commits[..|commits| - 1], account)
  }

  ghost predicate Inv<V>(b: Bridge<V>) {
    && (forall r :: r in b.commits ==> r in b.responses)
    && (forall a :: LastCommit(b.commits, a) == if a in b.cache then Some(b.cache[a]) else None)
    && (forall a :: a in b.cache ==> Response(a, b.cache[a]) in b.responses)
    && (forall c :: c in b.calls && b.calls[c].phase.Committing? ==>
          Response(b.calls[c].account, b.calls[c].phase.value) in b.responses)
    && (forall g :: g in b.answers && g.result.data.Some? ==> Response(g.account, g.result.data.value) in b.responses)
    && (forall g :: g in b.answers ==> (g.result.code == Success <==> g.result.data.Some?))
  }

  lemma CommitAppend<V>(commits: seq<Response<V>>, r: Response<V>, a: string)
    ensures LastCommit(commits + [r], a) == if r.account == a then Some(r.value) else LastCommit(commits, a)
  {
  }

  lemma ReplyKeepsInv<V>(s: Setup, b: Bridge<V>, c: nat, outcome: Rpc<V>)
    requires Inv(b) && c in b.calls
    ensures Inv(ReplyTo(s, b, c, outcome))
  {
  }

  lemma FinishKeepsInv<V>(s: Setup, b: Bridge<V>, c: nat)
    requires Inv(b) && c in b.calls
    ensures Inv(FinishCall(s, b, c))
  {
    var w := FinishCall(s, b, c);
    var account := b.calls[c].account;
    if b.calls[c].phase.Committing? {
      forall a ensures LastCommit(w.commits, a) == if a in w.cache then Some(w.cache[a]) else None {
        CommitAppend(b.commits, Response(account, b.calls[c].phase.value), a);
      }
    }
  }

  lemma InvStep<V>(s: Setup, b: Bridge<V>, step: Step<V>)
    requires Inv(b)
    ensures Inv(Apply(s, b, step))
  {
    match step
    case Reply(c, outcome) => if c in b.calls && b.calls[c].phase.Asking? { ReplyKeepsInv(s, b, c, outcome); }
    case Finish(c) => if c in b.calls { FinishKeepsInv(s, b, c); }
    case _ =>
  }

  lemma {:induction false} InvRun<V>(s: Setup, b: Bridge<V>, run: seq<Step<V>>)
    requires Inv(b)
    ensures Inv(Exec(s, b, run))
    decreases |run|
  {
    if run != [] {
      InvStep(s, b, run[0]);
      InvRun(s, Apply(s, b, run[0]), run[1..]);
    }
  }

  /**
   * However gets overlap with each other and with shutdowns, every value ever
   * answered for an account came in a response to a request for that account,
   * and a success always carries a value.
   */
  lemma AnswersHaveProvenance<V>(s: Setup, run: seq<Step<V>>, g: Given<V>)
    requires g in Exec(s, Fresh(), run).answers
    ensures g.result.code == Success <==> g.result.data.Some?
    ensures g.result.data.Some? ==> Response(g.account, g.result.data.value) in Exec(s, Fresh(), run).responses
  {
    InvRun(s, Fresh(), run);
  }

  /** A get that falls back answers with the commit made last for its account, or reports why it cannot. */
  lemma FallbackIsLastCommit<V>(s: Setup, run: seq<Step<V>>, c: nat)
    requires c in Exec(s, Fresh<V>(), run).calls && Exec(s, Fresh<V>(), run).calls[c].phase.FallingBack?
    ensures var b := Exec(s, Fresh<V>(), run);
            var call := b.calls[c];
            var known := LastCommit(b.commits, call.account);
            Apply(s, b, Finish(c)).answers == b.answers + [Given(call.account,
              if known.Some? then Result(Success, "", known)
              else if call.phase.initialized then Result(Timeout, s.messages.failed, None)
              else Result(NotInitialized, s.messages.unavailable, None))]
  {
    InvRun(s, Fresh(), run);
  }

  /**
   * In every state, whatever overlaps: a reply that the record is missing is
   * answered at once by a bridge that tells missing records, with that code and no
   * data, whatever is cached, and changes neither cache nor commits; by the other
   * bridge it counts as a failure, as does a failed reply by either.
   */
  lemma MissingIsAnswered<V>(s: Setup, b: Bridge<V>, c: nat)
    requires c in b.calls && b.calls[c].phase.Asking?
    ensures var call, w := b.calls[c], Apply(s, b, Reply(c, Missing));
            && w.cache == b.cache && w.commits == b.commits && w.responses == b.responses && w.live == b.live
            && (forall d :: d != c ==> (d in w.calls <==> d in b.calls) && (d in b.calls ==> w.calls[d] == b.calls[d]))
            && (s.tellsMissing ==>
                  && c !in w.calls && |w.answers| == |b.answers| + 1 && b.answers <= w.answers
                  && w.answers[|b.answers|].account == call.account
                  && w.answers[|b.answers|].result.code == NotFound
                  && w.answers[|b.answers|].result.message == s.messages.missing
                  && w.answers[|b.answers|].result.data == None)
            && (!s.tellsMissing ==> w == Apply(s, b, Reply(c, Failed)))
            && Apply(s, b, Reply(c, Failed)) == b.(calls := b.calls[c := Call(call.account, FallingBack(true))])
  {
  }

  /** A delivered value is what the call answers and commits, however long it takes to finish. */
  lemma DeliveredIsAnswered<V>(s: Setup, b: Bridge<V>, c: nat, v: V, between: seq<Step<V>>)
    requires c in b.calls && b.calls[c].phase.Asking?
    requires forall x :: x in between ==> !(x.Finish? && x.call == c)
    ensures var account := b.calls[c].account;
            var u := Exec(s, Apply(s, b, Reply(c, Delivered(v))), between);
            var w := Apply(s, u, Finish(c));
            && c !in w.calls
            && w.commits == u.commits + [Response(account, v)]
            && w.cache == u.cache[account := v]
            && |w.answers| == |u.answers| + 1 && u.answers <= w.answers
            && w.answers[|u.answers|].account == account
            && w.answers[|u.answers|].result.code == Success && w.answers[|u.answers|].result.data == Some(v)
  {
    CommittingStays(s, Apply(s, b, Reply(c, Delivered(v))), c, between);
    hide Exec;
  }

  lemma {:induction false} CommittingStays<V>(s: Setup, b: Bridge<V>, c: nat, run: seq<Step<V>>)
    requires c in b.calls && b.calls[c].phase.Committing?
    requires forall x :: x in run ==> !(x.Finish? && x.call == c)
    ensures c in Exec(s, b, run).calls && Exec(s, b, run).calls[c] == b.calls[c]
    decreases |run|
  {
    if run != [] {
      assert run == [run[0]] + run[1..];
      assert run[0] in run;
      OthersLeaveCommitting(s, b, c, run[0]);
      hide Apply;
      CommittingStays(s, Apply(s, b, run[0]), c, run[1..]);
    }
  }

  lemma OthersLeaveCommitting<V>(s: Setup, b: Bridge<V>, c: nat, x: Step<V>)
    requires c in b.calls && b.calls[c].phase.Committing? && !(x.Finish? && x.call == c)
    ensures c in Apply(s, b, x).calls && Apply(s, b, x).calls[c] == b.calls[c]
  {
  }

  /**
   * A get reaches the service exactly if the client is up as it starts. One that
   * starts while it is down is answered the last commit, or that the client is not
   * initialised, whatever happens to the client meanwhile.
   */
  lemma GetAsksExact<V>(s: Setup, b: Bridge<V>, c: nat, account: string, v: V)
    requires Inv(b) && c !in b.calls
    ensures var u := Apply(s, b, Start(c, account));
            && (Response(account, v) in Apply(s, u, Reply(c, Delivered(v))).responses[|b.responses|..] <==> b.live)
            && (!b.live ==>
                  var w, known := Apply(s, u, Finish(c)), LastCommit(b.commits, account);
                  && |w.answers| == |b.answers| + 1 && b.answers <= w.answers
                  && w.answers[|b.answers|].account == account && w.answers[|b.answers|].result.data == known
                  && w.answers[|b.answers|].result.code == if known.Some? then Success else NotInitialized)
  {
    var u := Apply(s, b, Start(c, account));
    var w := Apply(s, u, Reply(c, Delivered(v)));
    if b.live {
      assert w.responses[|b.responses|..] == [Response(account, v)];
    }
  }

  // ---- calls one after the other ----

  /** The steps of one call that nothing overlaps. */
  function Alone<V>(e: Event<V>): seq<Step<V>> {
    match e
    case Init => [Initialize]
    case Shutdown => [Step.Shutdown]
    case Get(account, _, outcome) => [Start(0, account), Reply(0, outcome), Finish(0)]
  }

  function Serial<V>(h: seq<Event<V>>): seq<Step<V>> {
    if h == [] then [] else Serial(h[..|h| - 1]) + Alone(h[|h| - 1])
  }

  /** The answers the sequential contract prescribes for the history. */
  ghost function Prescribed<V>(s: Setup, h: seq<Event<V>>): seq<Given<V>>
    decreases |h|
  {
    if h == [] then []
    else
      var init := h[..|h| - 1];
      match h[|h| - 1]
      case Get(account, _, outcome) =>
        Prescribed(s, init) + [Given(account,
          Answer(Live(init, s.usable), LatestGood(init, s.usable, account), s.tellsMissing, s.messages, outcome))]
      case _ => Prescribed(s, init)
  }

  lemma {:induction false} ExecConcat<V>(s: Setup, b: Bridge<V>, x: seq<Step<V>>, y: seq<Step<V>>)
    ensures Exec(s, b, x + y) == Exec(s, Exec(s, b, x), y)
    decreases |x|
  {
    if x == [] {
      assert x + y == y;
    } else {
      assert (x + y)[1..] == x[1..] + y;
      ExecConcat(s, Apply(s, b, x[0]), x[1..], y);
    }
  }

  lemma ExecThree<V>(s: Setup, b: Bridge<V>, x: Step<V>, y: Step<V>, z: Step<V>)
    ensures Exec(s, b, [x, y, z]) == Apply(s, Apply(s, Apply(s, b, x), y), z)
  {
    hide Apply;
    assert [x, y, z][1..] == [y, z] && [y, z][1..] == [z];
    assert Exec(s, Apply(s, b, x), [y, z]) == Exec(s, Apply(s, Apply(s, b, x), y), [z]);
    assert Exec(s, Apply(s, Apply(s, b, x), y), [z]) == Exec(s, Apply(s, Apply(s, Apply(s, b, x), y), z), []);
  }

  lemma UndisturbedGet<V>(s: Setup, b: Bridge<V>, account: string, engine: string, outcome: Rpc<V>)
    requires Inv(b) && b.calls == map[]
    ensures var w := Exec(s, b, Alone(Get(account, engine, outcome)));
            && w.calls == map[] && w.live == b.live
            && w.answers == b.answers + [Given(account,
                 Answer(b.live, LastCommit(b.commits, account), s.tellsMissing, s.messages, outcome))]
            && forall a :: LastCommit(w.commits, a)
                 == if b.live && outcome.Delivered? && a == account then Some(outcome.value)
                    else LastCommit(b.commits, a)
  {
    ExecThree(s, b, Start(0, account), Reply(0, outcome), Finish(0));
    hide Exec;
    var b1 := Apply(s, b, Start(0, account));
    var b2 := Apply(s, b1, Reply(0, outcome));
    assert b2.calls - {0} == map[];
    if b.live && outcome.Delivered? {
      forall a ensures LastCommit(b.commits + [Response(account, outcome.value)], a)
                    == if a == account then Some(outcome.value) else LastCommit(b.commits, a) {
        CommitAppend(b.commits, Response(account, outcome.value), a);
      }
    }
  }

  /**
   * Gets that do not overlap give, call by call, exactly the answers the
   * sequential contract prescribes, for every history of initialisations,
   * shutdowns and gets with arbitrary outcomes.
   */
  lemma {:induction false} SerialRunsMeetTheContract<V>(s: Setup, h: seq<Event<V>>)
    ensures var b := Exec(s, Fresh(), Serial(h));
            && Inv(b) && b.calls == map[]
            && (b.live <==> Live(h, s.usable))
            && (forall a :: LastCommit(b.commits, a) == LatestGood(h, s.usable, a))
            && b.answers == Prescribed(s, h)
    decreases |h|
  {
    if h != [] {
      var init := h[..|h| - 1];
      var e := h[|h| - 1];
      SerialRunsMeetTheContract(s, init);
      var b := Exec(s, Fresh<V>(), Serial(init));
      ExecConcat(s, Fresh(), Serial(init), Alone(e));
      InvRun(s, b, Alone(e));
      match e {
        case Get(account, engine, outcome) => UndisturbedGet(s, b, account, engine, outcome);
        case Init =>
          assert Exec(s, b, [Initialize]) == Exec(s, Apply(s, b, Initialize), []);
          LiveImpliesUsable(init, s.usable);
        case Shutdown =>
          assert Exec(s, b, [Step.Shutdown]) == Exec(s, Apply(s, b, Step.Shutdown), []);
      }
    }
  }
}
