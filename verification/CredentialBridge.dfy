// GrpcAccountBridge and its client: the same last-known-good answers for
// credentials, with a missing record treated like a failed call. The cache is
// keyed by account alone, whichever engine asked.
module CredentialBridge {
  import opened VenueTypes
  import opened LastKnownGood

  const CREDENTIAL_MESSAGES := Messages("", "GetCredential RPC failed", "credential not available")

  class AccountClient<Credential> {
    var initialized: bool

    constructor ()
      ensures !initialized
    {
      initialized := false;
    }

    method Init(config: ServiceConfig) returns (rc: ErrorCode)
      modifies this
      ensures rc == if old(initialized) then SystemError
                    else if config.host != "" && 0 < config.port then Success else InternalError
      ensures initialized == (old(initialized) || (config.host != "" && 0 < config.port))
    {
      if initialized {
        return SystemError;
      }
      if config.host == "" || config.port <= 0 {
        return InternalError;
      }
      initialized := true;
      rc := Success;
    }

    method Shutdown()
      modifies this
      ensures !initialized
    {
      initialized := false;
    }

    method GetCredential(outcome: Rpc<Credential>) returns (rc: ErrorCode, response: Option<Credential>)
      ensures rc == if !initialized then NotInitialized else if outcome.Delivered? then Success else Timeout
      ensures rc == Success ==> outcome.Delivered? && response == Some(outcome.value)
    {
      response := None;
      if !initialized {
        return NotInitialized, response;
      }
      if !outcome.Delivered? {
        return Timeout, response;
      }
      return Success, Some(outcome.value);
    }
  }

  class GrpcAccountBridge<Credential> {
    const config: ServiceConfig
    const client: AccountClient<Credential>
    var cache: map<string, Credential>
    // Every call so far.
    ghost var history: seq<Event<Credential>>

    ghost predicate Valid()
      reads this, client
    {
      && (client.initialized <==> Live(history, Usable(config)))
      && forall a :: Cached(a) == LatestGood(history, Usable(config), a)
    }

    ghost function Cached(account: string): Option<Credential>
      reads this
    {
      if account in cache then Some(cache[account]) else None
    }

    constructor (config: ServiceConfig)
      ensures Valid() && history == [] && fresh(client) && this.config == config
    {
      this.config := config;
      client := new AccountClient();
      cache := map[];
      history := [];
    }

    method Initialize() returns (rc: ErrorCode)
      requires Valid()
      modifies this, client
      ensures Valid() && history == old(history) + [Event.Init]
      ensures rc == Success <==> !Live(old(history), Usable(config)) && config.host != "" && 0 < config.port
    {
      LiveImpliesUsable(history, Usable(config));
      rc := client.Init(config);
      history := history + [Event.Init];
      assert history[..|history| - 1] == old(history);
    }

    method Shutdown()
      requires Valid()
      modifies this, client
      ensures Valid() && history == old(history) + [Event.Shutdown]
    {
      client.Shutdown();
      history := history + [Event.Shutdown];
      assert history[..|history| - 1] == old(history);
    }

    /** The engine id goes into the request and nowhere else; CredentialOwners says whose credential comes back. */
    method GetCredential(account: string, engine: string, outcome: Rpc<Credential>)
      returns (result: Result<Credential>)
      requires Valid()
      modifies this
      ensures Valid() && history == old(history) + [Get(account, engine, outcome)]
      ensures result == Answer(Live(old(history), Usable(config)), LatestGood(old(history), Usable(config), account),
                               false, CREDENTIAL_MESSAGES, outcome)
      ensures var live, known := Live(old(history), Usable(config)), LatestGood(old(history), Usable(config), account);
              && (live && outcome.Delivered? ==>
                    result.code == Success && result.message == "" && result.data == Some(outcome.value)
                    && LatestGood(history, Usable(config), account) == Some(outcome.value))
              && (!live || !outcome.Delivered? ==>
                    && result.data == known
                    && (known.Some? ==> result.code == Success && result.message == "")
                    && (known.None? && live ==> result.code == Timeout && result.message == "GetCredential RPC failed")
                    && (known.None? && !live ==>
                          result.code == NotInitialized && result.message == "credential not available"))
      ensures forall a :: !(Live(old(history), Usable(config)) && outcome.Delivered? && a == account) ==>
                LatestGood(history, Usable(config), a) == LatestGood(old(history), Usable(config), a)
    {
      forall a { KnownAfter(history, Get(account, engine, outcome), Usable(config), a); }
      history := history + [Get(account, engine, outcome)];
      assert history[..|history| - 1] == old(history);
      result := Result(Success, "", None);
      if client.initialized {
        var rc, response := client.GetCredential(outcome);
        if rc == Success {
          cache := cache[account := response.value];
          result := result.(data := response);
          return;
        }
        result := result.(code := Timeout);
        result := result.(message := "GetCredential RPC failed");
      }
      if account !in cache {
        if result.code == Success {
          result := result.(code := NotInitialized);
          result := result.(message := "credential not available");
        }
        return;
      }
      result := result.(code := Success);
      result := result.(message := "");
      result := result.(data := Some(cache[account]));
    }
  }
}
