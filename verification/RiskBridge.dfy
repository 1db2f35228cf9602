// GrpcAccountRiskBridge and its client: a cache of account risk policies that
// answers exactly what the history of calls prescribes.
module RiskBridge {
  import opened VenueTypes
  import opened LastKnownGood

  const MESSAGES := Messages(
    "account risk policy not found", "GetAccountRiskPolicy RPC failed", "account risk policy not available")

  const NO_ENGINE := ""

  class AccountRiskClient<Policy> {
    var stub: bool   // the stub exists

    constructor ()
      ensures !stub
    {
      stub := false;
    }

    method Init(config: ServiceConfig) returns (rc: ErrorCode)
      modifies this
      ensures rc == if !old(stub) && config.host != "" && 0 < config.port then Success else InternalError
      ensures stub == (old(stub) || (config.host != "" && 0 < config.port))
    {
      if stub || config.host == "" || config.port <= 0 {
        return InternalError;
      }
      stub := true;
      rc := Success;
    }

    method Shutdown()
      modifies this
      ensures !stub
    {
      stub := false;
    }

    /** The outcome is what the remote service does with the request if it is reached. */
    method GetAccountRiskPolicy(outcome: Rpc<Policy>) returns (rc: ErrorCode, response: Option<Policy>)
      ensures rc == if !stub then NotInitialized
                    else match outcome case Delivered(_) => Success case Missing => NotFound case Failed => Timeout
      ensures rc == Success ==> outcome.Delivered? && response == Some(outcome.value)
    {
      response := None;
      if !stub {
        return NotInitialized, response;
      }
      match outcome
      case Delivered(value) => return Success, Some(value);
      case Missing => return NotFound, response;
      case Failed => return Timeout, response;
    }
  }

  class GrpcAccountRiskBridge<Policy> {
    const config: ServiceConfig
    const client: AccountRiskClient<Policy>
    var policyCache: map<string, Policy>
    // Every call so far.
    ghost var history: seq<Event<Policy>>

    /** Client and cache hold what the history says, and nothing else. */
    ghost predicate Valid()
      reads this, client
    {
      && (client.stub <==> Live(history, Usable(config)))
      && forall a :: Cached(a) == LatestGood(history, Usable(config), a)
    }

    ghost function Cached(account: string): Option<Policy>
      reads this
    {
      if account in policyCache then Some(policyCache[account]) else None
    }

    constructor (config: ServiceConfig)
      ensures Valid() && history == [] && fresh(client) && this.config == config
    {
      this.config := config;
      client := new AccountRiskClient();
      policyCache := map[];
      history := [];
    }

    method Initialize() returns (rc: ErrorCode)
      requires Valid()
      modifies this, client
      ensures Valid() && history == old(history) + [Event.Init]
      ensures rc == Success <==> !Live(old(history), Usable(config)) && config.host != "" && 0 < config.port
    {
      LiveImpliesUsable(history, Usable(config));
      rc := client.Init(config);
      history := history + [Event.Init];
      assert history[..|history| - 1] == old(history);
    }

    method Shutdown()
      requires Valid()
      modifies this, client
      ensures Valid() && history == old(history) + [Event.Shutdown]
    {
      client.Shutdown();
      history := history + [Event.Shutdown];
      assert history[..|history| - 1] == old(history);
    }

    /** The answer depends on the history alone, through the last good value for the account. */
    method GetAccountRiskPolicy(account: string, outcome: Rpc<Policy>) returns (result: Result<Policy>)
      requires Valid()
      modifies this
      ensures Valid() && history == old(history) + [Get(account, NO_ENGINE, outcome)]
      ensures result == Answer(Live(old(history), Usable(config)), LatestGood(old(history), Usable(config), account),
                               true, MESSAGES, outcome)
      ensures var live, known := Live(old(history), Usable(config)), LatestGood(old(history), Usable(config), account);
              && (live && outcome.Delivered? ==>
                    result.code == Success && result.message == "" && result.data == Some(outcome.value)
                    && LatestGood(history, Usable(config), account) == Some(outcome.value))
              && (live && outcome.Missing? ==>
                    result.code == NotFound && result.message == "account risk policy not found"
                    && result.data == None)
              && (!live || outcome.Failed? ==>
                    && result.data == known
                    && (known.Some? ==> result.code == Success && result.message == "")
                    && (known.None? && live ==>
                          result.code == Timeout && result.message == "GetAccountRiskPolicy RPC failed")
                    && (known.None? && !live ==>
                          result.code == NotInitialized && result.message == "account risk policy not available"))
      ensures forall a :: !(Live(old(history), Usable(config)) && outcome.Delivered? && a == account) ==>
                LatestGood(history, Usable(config), a) == LatestGood(old(history), Usable(config), a)
    {
      forall a { KnownAfter(history, Get(account, NO_ENGINE, outcome), Usable(config), a); }
      history := history + [Get(account, NO_ENGINE, outcome)];
      assert history[..|history| - 1] == old(history);
      result := Result(Success, "", None);
      if client.stub {
        var rc, response := client.GetAccountRiskPolicy(outcome);
        if rc == Success {
          policyCache := policyCache[account := response.value];
          result := result.(data := response);
          return;
        }
        if rc == NotFound {
          result := result.(code := NotFound);
          result := result.(message := "account risk policy not found");
          return;
        }
        result := result.(code := Timeout);
        result := result.(message := "GetAccountRiskPolicy RPC failed");
      }
      if account !in policyCache {
        if result.code == Success {
          result := result.(code := NotInitialized);
          result := result.(message := "account risk policy not available");
        }
        return;
      }
      result := result.(code := Success);
      result := result.(message := "");
      result := result.(data := Some(policyCache[account]));
    }
  }
}
