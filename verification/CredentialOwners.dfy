// Whose credential the bridge gives an engine: the cache is keyed by account
// alone, so a fallback may be the credential another engine fetched. Exactly when
// it is, by following every credential back to the engine it was fetched for.
module CredentialOwners {
  import opened VenueTypes
  import opened LastKnownGood
  import opened CredentialBridge

  /** A credential together with the engine whose request it answered. */
  datatype Issued<V> = Issued(engine: string, credential: V)

  function StampRpc<V>(engine: string, o: Rpc<V>): Rpc<Issued<V>> {
    match o
    case Delivered(v) => Delivered(Issued(engine, v))
    case Missing => Missing
    case Failed => Failed
  }

  function Stamp<V>(e: Event<V>): Event<Issued<V>> {
    match e
    case Init => Event.Init
    case Shutdown => Event.Shutdown
    case Get(account, engine, outcome) => Get(account, engine, StampRpc(engine, outcome))
  }

  /** The same history with every delivered credential marked with its engine. */
  function StampAll<V>(h: seq<Event<V>>): (c: seq<Event<Issued<V>>>)
    ensures |c| == |h|
    ensures forall i :: 0 <= i < |h| ==> c[i] == Stamp(h[i])
  {
    seq(|h|, i requires 0 <= i < |h| => Stamp(h[i]))
  }

  /** What the bridge answers after the history. */
  ghost function Reply<V>(h: seq<Event<V>>, usable: bool, account: string, outcome: Rpc<V>): Result<V> {
    Answer(Live(h, usable), LatestGood(h, usable, account), false, CREDENTIAL_MESSAGES, outcome)
  }

  /** What it answers to the engine, every credential marked with the engine it was fetched for. */
  ghost function MarkedReply<V>(h: seq<Event<V>>, usable: bool, account: string, engine: string, outcome: Rpc<V>)
    : Result<Issued<V>>
  {
    Reply(StampAll(h), usable, account, StampRpc(engine, outcome))
  }

  /** The engine is given a credential that was fetched for another one. */
  ghost predicate Borrowed<V>(h: seq<Event<V>>, usable: bool, account: string, engine: string, outcome: Rpc<V>) {
    var r := MarkedReply(h, usable, account, engine, outcome);
    r.data.Some? && r.data.value.engine != engine
  }

  lemma {:induction false} StampKeepsLive<V>(h: seq<Event<V>>, usable: bool)
    ensures Live(StampAll(h), usable) <==> Live(h, usable)
    decreases |h|
  {
    if h != [] {
      assert StampAll(h)[..|h| - 1] == StampAll(h[..|h| - 1]);
      StampKeepsLive(h[..|h| - 1], usable);
    }
  }

  lemma StampKeepsFetched<V>(h: seq<Event<V>>, usable: bool, account: string, i: nat)
    requires i < |h|
    ensures Fetched(StampAll(h), usable, account, i) <==> Fetched(h, usable, account, i)
  {
    StampKeepsLive(h[..i], usable);
    assert StampAll(h)[..i] == StampAll(h[..i]);
  }

  /** The last good credential, marked, is that of the last fetching call, marked with its engine. */
  lemma {:induction false} StampKeepsKnown<V>(h: seq<Event<V>>, usable: bool, account: string)
    ensures var known, marked := LatestGood(h, usable, account), LatestGood(StampAll(h), usable, account);
            && (known.Some? <==> marked.Some?)
            && (known.Some? ==> marked.value.credential == known.value)
    decreases |h|
  {
    if h != [] {
      var n := |h| - 1;
      assert StampAll(h)[..n] == StampAll(h[..n]);
      StampKeepsKnown(h[..n], usable, account);
      StampKeepsFetched(h, usable, account, n);
    }
  }

  /** The last call that fetched a credential for the account was another engine's. */
  ghost predicate LastFetchedByAnother<V>(h: seq<Event<V>>, usable: bool, account: string, engine: string) {
    exists i: nat :: i < |h| && FetchedLast(h, usable, account, i) && h[i].engine != engine
  }

  lemma {:induction false} MarkedByLastFetch<V>(h: seq<Event<V>>, usable: bool, account: string, engine: string)
    ensures var marked := LatestGood(StampAll(h), usable, account);
            (marked.Some? && marked.value.engine != engine) <==> LastFetchedByAnother(h, usable, account, engine)
    decreases |h|
  {
    if h != [] {
      var n := |h| - 1;
      assert StampAll(h)[..n] == StampAll(h[..n]);
      StampKeepsFetched(h, usable, account, n);
      if Fetched(h, usable, account, n) {
        assert FetchedLast(h, usable, account, n);
      } else {
        MarkedByLastFetch(h[..n], usable, account, engine);
        forall i: nat | i < n
          ensures FetchedLast(h, usable, account, i) <==> FetchedLast(h[..n], usable, account, i)
        {
          LastFetchInPrefix(h, usable, account, i);
        }
      }
    }
  }

  /**
   * After every history: marking changes no answer, and an engine is given a
   * credential fetched for another one if and only if its own request does not
   * get through and the last one that did for the account was another engine's.
   */
  lemma BorrowedExact<V>(h: seq<Event<V>>, usable: bool, account: string, engine: string, outcome: Rpc<V>)
    ensures var r, s := Reply(h, usable, account, outcome), MarkedReply(h, usable, account, engine, outcome);
            && r.code == s.code && r.message == s.message
            && (r.data.Some? <==> s.data.Some?)
            && (r.data.Some? ==> r.data.value == s.data.value.credential)
    ensures Borrowed(h, usable, account, engine, outcome)
       <==> !(Live(h, usable) && outcome.Delivered?) && LastFetchedByAnother(h, usable, account, engine)
  {
    StampKeepsLive(h, usable);
    StampKeepsKnown(h, usable, account);
    MarkedByLastFetch(h, usable, account, engine);
  }

  /** One engine fetches the credential, another one fails to and gets it. */
  lemma FailedFetchBorrows<V>(account: string, first: string, second: string, v: V)
    requires first != second
    ensures var h := [Event.Init, Get(account, first, Delivered(v))];
            && Reply(h, true, account, Failed) == Result(Success, "", Some(v))
            && Borrowed(h, true, account, second, Failed)
  {
    var h := [Event.Init, Get(account, first, Delivered(v))];
    assert h[..1] == [Event<V>.Init];
    assert Live(h[..1], true);
    assert Fetched(h, true, account, 1);
    assert FetchedLast(h, true, account, 1);
    BorrowedExact(h, true, account, second, Failed);
  }

  // ---- what a caller can check ----

  /** The same calls, whatever the service made of them. */
  ghost predicate SameCalls<V>(h: seq<Event<V>>, g: seq<Event<V>>) {
    && |g| == |h|
    && forall i :: 0 <= i < |h| ==>
         && (g[i].Init? <==> h[i].Init?) && (g[i].Get? <==> h[i].Get?)
         && (h[i].Get? ==> g[i].account == h[i].account && g[i].engine == h[i].engine)
  }

  /** No other engine asked for the account while the client was up. */
  ghost predicate OnlyEngine<V>(h: seq<Event<V>>, usable: bool, account: string, engine: string) {
    forall i: nat :: i < |h| && h[i].Get? && h[i].account == account && Live(h[..i], usable) ==> h[i].engine == engine
  }

  lemma {:induction false} LiveByCalls<V>(h: seq<Event<V>>, g: seq<Event<V>>, usable: bool)
    requires SameCalls(h, g)
    ensures Live(g, usable) <==> Live(h, usable)
    decreases |h|
  {
    if h != [] {
      LiveByCalls(h[..|h| - 1], g[..|g| - 1], usable);
    }
  }

  /** The history in which the i-th request is the only one to get through. */
  function OnlyAnswered<V>(h: seq<Event<V>>, i: nat, v: V): (g: seq<Event<V>>)
    requires i < |h| && h[i].Get?
    ensures |g| == |h| && forall j :: 0 <= j < |h| ==>
              g[j] == if !h[j].Get? then h[j] else h[j].(outcome := if j == i then Delivered(v) else Failed)
  {
    seq(|h|, j requires 0 <= j < |h| =>
      if !h[j].Get? then h[j] else h[j].(outcome := if j == i then Delivered(v) else Failed))
  }

  lemma AnotherCanLend<V>(h: seq<Event<V>>, usable: bool, account: string, engine: string, i: nat, v: V)
    requires i < |h| && h[i].Get? && h[i].account == account && Live(h[..i], usable) && h[i].engine != engine
    ensures SameCalls(h, OnlyAnswered(h, i, v))
    ensures Borrowed(OnlyAnswered(h, i, v), usable, account, engine, Failed)
  {
    var g := OnlyAnswered(h, i, v);
    LiveByCalls(h[..i], g[..i], usable);
    assert Fetched(g, usable, account, i);
    assert FetchedLast(g, usable, account, i);
    BorrowedExact(g, usable, account, engine, Failed);
  }

  /**
   * What a caller can go by, whatever the service answers: an engine is sure to be
   * given only credentials fetched for itself if and only if no other engine asked
   * for the account while the client was up.
   */
  lemma NeverBorrowsExact<V>(h: seq<Event<V>>, usable: bool, account: string, engine: string, v: V)
    ensures (forall g: seq<Event<V>>, outcome: Rpc<V> :: SameCalls(h, g) ==>
              !Borrowed(g, usable, account, engine, outcome))
       <==> OnlyEngine(h, usable, account, engine)
  {
    if OnlyEngine(h, usable, account, engine) {
      forall g: seq<Event<V>>, outcome: Rpc<V> | SameCalls(h, g)
        ensures !Borrowed(g, usable, account, engine, outcome)
      {
        BorrowedExact(g, usable, account, engine, outcome);
        forall i: nat | i < |g| && FetchedLast(g, usable, account, i) ensures g[i].engine == engine {
          LiveByCalls(h[..i], g[..i], usable);
        }
      }
    } else {
      var i: nat :| i < |h| && h[i].Get? && h[i].account == account && Live(h[..i], usable) && h[i].engine != engine;
      AnotherCanLend(h, usable, account, engine, i, v);
    }
  }
}
