// The contract of a bridge that answers from a remote service and falls back on
// the last good answer: what it must answer after any history of calls, said
// without a cache. The remote outcome of each call is arbitrary.
module LastKnownGood {
  import opened VenueTypes

  /** What the remote service does with one request. */
  datatype Rpc<V> = Delivered(value: V) | Missing | Failed

  datatype Event<V> =
    | Init
    | Shutdown
    | Get(account: string, engine: string, outcome: Rpc<V>)   // the engine that asks; a policy request names none

  datatype Result<V> = Result(code: ErrorCode, message: string, data: Option<V>)

  datatype ServiceConfig = ServiceConfig(host: string, port: int)

  predicate Usable(config: ServiceConfig) {
    config.host != "" && config.port > 0
  }

  /** Whether the client is initialised after the history. */
  ghost predicate Live<V>(h: seq<Event<V>>, usable: bool)
    decreases |h|
  {
    if h == [] then false
    else
      match h[|h| - 1]
      case Init => usable
      case Shutdown => false
      case Get(_, _, _) => Live(h[..|h| - 1], usable)
  }

  lemma {:induction false} LiveImpliesUsable<V>(h: seq<Event<V>>, usable: bool)
    ensures Live(h, usable) ==> usable
    decreases |h|
  {
    if h != [] {
      LiveImpliesUsable(h[..|h| - 1], usable);
    }
  }

  /** The i-th event fetched a value for the account. */
  ghost predicate Fetched<V>(h: seq<Event<V>>, usable: bool, account: string, i: nat)
    requires i < |h|
  {
    h[i].Get? && h[i].account == account && h[i].outcome.Delivered? && Live(h[..i], usable)
  }

  /** The value fetched last for the account, whatever happened since. */
  ghost function LatestGood<V>(h: seq<Event<V>>, usable: bool, account: string): Option<V>
    decreases |h|
  {
    if h == [] then None
    else if Fetched(h, usable, account, |h| - 1) then Some(h[|h| - 1].outcome.value)
    else LatestGood(h[..|h| - 1], usable, account)
  }

  /** The words a bridge reports with its codes. */
  datatype Messages = Messages(missing: string, failed: string, unavailable: string)

  /**
   * The answer to a request whose RPC would have the given outcome. A bridge
   * that does not tell a missing record from a failed call treats both as failed.
   */
  ghost function Answer<V>(live: bool, known: Option<V>, tellsMissing: bool, m: Messages, outcome: Rpc<V>): Result<V> {
    if live && outcome.Delivered? then Result(Success, "", Some(outcome.value))
    else if live && outcome.Missing? && tellsMissing then Result(NotFound, m.missing, None)
    else if known.Some? then Result(Success, "", known)
    else if live then Result(Timeout, m.failed, None)
    else Result(NotInitialized, m.unavailable, None)
  }

  /** The client is up exactly when the configuration is usable and an Init came after every Shutdown. */
  lemma {:induction false} LiveExact<V>(h: seq<Event<V>>, usable: bool)
    ensures Live(h, usable)
       <==> usable && exists i :: 0 <= i < |h| && h[i].Init? && forall j :: i < j < |h| ==> !h[j].Shutdown?
    decreases |h|
  {
    if h != [] {
      var n := |h| - 1;
      var init := h[..n];
      LiveExact(init, usable);
      if Live(init, usable) && !h[n].Shutdown? {
        var i :| 0 <= i < |init| && init[i].Init? && forall j :: i < j < |init| ==> !init[j].Shutdown?;
        assert h[i].Init? && forall j :: i < j < |h| ==> !h[j].Shutdown?;
      }
      if i :| 0 <= i < n && h[i].Init? && forall j :: i < j < |h| ==> !h[j].Shutdown? {
        assert init[i].Init? && forall j :: i < j < n ==> !init[j].Shutdown?;
      }
    }
  }

  lemma PrefixEvents<V>(h: seq<Event<V>>, more: seq<Event<V>>, usable: bool, account: string, i: nat)
    requires i < |h|
    ensures Fetched(h + more, usable, account, i) <==> Fetched(h, usable, account, i)
  {
    assert (h + more)[..i] == h[..i];
  }

  /** The i-th event fetched a value for the account, and no later one did. */
  ghost predicate FetchedLast<V>(h: seq<Event<V>>, usable: bool, account: string, i: nat)
    requires i < |h|
  {
    Fetched(h, usable, account, i) && forall j: nat :: i < j < |h| ==> !Fetched(h, usable, account, j)
  }

  lemma FetchedInPrefix<V>(h: seq<Event<V>>, usable: bool, account: string, i: nat)
    requires i < |h| - 1
    ensures Fetched(h, usable, account, i) <==> Fetched(h[..|h| - 1], usable, account, i)
  {
    assert h == h[..|h| - 1] + [h[|h| - 1]];
    PrefixEvents(h[..|h| - 1], [h[|h| - 1]], usable, account, i);
  }

  lemma LastFetchInPrefix<V>(h: seq<Event<V>>, usable: bool, account: string, i: nat)
    requires i < |h| - 1 && !Fetched(h, usable, account, |h| - 1)
    ensures FetchedLast(h, usable, account, i) <==> FetchedLast(h[..|h| - 1], usable, account, i)
  {
    var init := h[..|h| - 1];
    forall j: nat | j < |init| ensures Fetched(h, usable, account, j) <==> Fetched(init, usable, account, j) {
      FetchedInPrefix(h, usable, account, j);
    }
    if FetchedLast(h, usable, account, i) {
      forall j: nat | i < j < |init| ensures !Fetched(init, usable, account, j) {
        assert !Fetched(h, usable, account, j);
      }
    }
  }

  /** The latest good value is the one of the last fetching event, and absent only if there is none. */
  lemma {:induction false} LatestGoodExact<V>(h: seq<Event<V>>, usable: bool, account: string, v: V)
    ensures LatestGood(h, usable, account) == Some(v) <==>
            exists i: nat :: i < |h| && FetchedLast(h, usable, account, i) && h[i].outcome.value == v
    ensures LatestGood(h, usable, account) == None <==> forall i: nat :: i < |h| ==> !Fetched(h, usable, account, i)
    decreases |h|
  {
    if h != [] {
      var n := |h| - 1;
      if Fetched(h, usable, account, n) {
        assert FetchedLast(h, usable, account, n);
      } else {
        LatestGoodExact(h[..n], usable, account, v);
        forall i: nat | i < n
          ensures Fetched(h, usable, account, i) <==> Fetched(h[..n], usable, account, i)
          ensures FetchedLast(h, usable, account, i) <==> FetchedLast(h[..n], usable, account, i)
        {
          FetchedInPrefix(h, usable, account, i);
          LastFetchInPrefix(h, usable, account, i);
        }
      }
    }
  }

  lemma {:induction false} KnownStaysKnown<V>(h: seq<Event<V>>, more: seq<Event<V>>, usable: bool, account: string)
    requires LatestGood(h, usable, account).Some?
    ensures LatestGood(h + more, usable, account).Some?
    decreases |more|
  {
    if more == [] {
      assert h + more == h;
    } else {
      var n := |more| - 1;
      KnownStaysKnown(h, more[..n], usable, account);
      assert (h + more)[..|h + more| - 1] == h + more[..n];
    }
  }

  /**
   * Once a value has been fetched for an account, no history of failures, missing
   * records, shutdowns or restarts makes the bridge answer with a timeout or as
   * uninitialised for it again, and a bridge that does not tell missing records
   * always has a value to give.
   */
  lemma NeverForgets<V>(h: seq<Event<V>>, more: seq<Event<V>>, usable: bool, account: string,
                        tellsMissing: bool, m: Messages, outcome: Rpc<V>)
    requires LatestGood(h, usable, account).Some?
    ensures var known := LatestGood(h + more, usable, account);
            var r := Answer(Live(h + more, usable), known, tellsMissing, m, outcome);
            && r.code != Timeout && r.code != NotInitialized
            && (r.code == Success || r.code == NotFound)
            && (r.code == Success ==> r.data.Some?)
            && (!tellsMissing ==> r.code == Success)
  {
    KnownStaysKnown(h, more, usable, account);
  }

  /** What a call adds to what is known: a fetched value for its account, and nothing else. */
  lemma KnownAfter<V>(h: seq<Event<V>>, e: Event<V>, usable: bool, account: string)
    ensures LatestGood(h + [e], usable, account)
         == if e.Get? && e.account == account && e.outcome.Delivered? && Live(h, usable) then Some(e.outcome.value)
            else LatestGood(h, usable, account)
  {
    assert (h + [e])[..|h + [e]| - 1] == h;
  }

  // ---- the two bridges compared ----

  function Collapse<V>(o: Rpc<V>): Rpc<V> {
    if o.Missing? then Failed else o
  }

  function CollapseEvent<V>(e: Event<V>): Event<V> {
    if e.Get? then e.(outcome := Collapse(e.outcome)) else e
  }

  function CollapseAll<V>(h: seq<Event<V>>): (c: seq<Event<V>>)
    ensures |c| == |h|
    ensures forall i :: 0 <= i < |h| ==> c[i] == CollapseEvent(h[i])
  {
    seq(|h|, i requires 0 <= i < |h| => CollapseEvent(h[i]))
  }

  lemma {:induction false} CollapseKeepsLive<V>(h: seq<Event<V>>, usable: bool)
    ensures Live(CollapseAll(h), usable) <==> Live(h, usable)
    decreases |h|
  {
    if h != [] {
      assert CollapseAll(h)[..|h| - 1] == CollapseAll(h[..|h| - 1]);
      CollapseKeepsLive(h[..|h| - 1], usable);
    }
  }

  lemma {:induction false} CollapseKeepsKnown<V>(h: seq<Event<V>>, usable: bool, account: string)
    ensures LatestGood(CollapseAll(h), usable, account) == LatestGood(h, usable, account)
    decreases |h|
  {
    if h != [] {
      assert CollapseAll(h)[..|h| - 1] == CollapseAll(h[..|h| - 1]);
      CollapseKeepsKnown(h[..|h| - 1], usable, account);
      CollapseKeepsLive(h[..|h| - 1], usable);
    }
  }

  /** The bridge that does not tell missing records is the other one with missing records turned into failures. */
  lemma SameMachineWithMissingCollapsed<V>(
    h: seq<Event<V>>, usable: bool, account: string, m: Messages, outcome: Rpc<V>)
    ensures Answer(Live(h, usable), LatestGood(h, usable, account), false, m, outcome)
         == Answer(Live(CollapseAll(h), usable), LatestGood(CollapseAll(h), usable, account),
                   true, m, Collapse(outcome))
  {
    CollapseKeepsLive(h, usable);
    CollapseKeepsKnown(h, usable, account);
  }
}
