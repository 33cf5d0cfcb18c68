/** One upstream node: fixed configuration plus the health and head last heard of it. */
module Endpoints {
  import opened Types
  import opened Fleets
  import ChainRefs

  class Endpoint {
    const name: string
    const chain: ChainRef
    const config: EndpointConfig
    var skipMethods: set<string>
    var healthy: bool
    var blockhead: Option<Block>
    var connected: bool

    /** A new endpoint is presumed healthy and has no head yet. */
    constructor (name: string, config: EndpointConfig)
      requires ChainRefs.ParseChain(config.chain).Some?
      ensures this.name == name && this.config == config
      ensures chain == ChainRefs.ParseChain(config.chain).value
      ensures State() == Fresh(config)
      ensures forall rpc :: rpc in skipMethods <==> rpc in config.skipMethods
      ensures forall rpc, h :: IsAvailable(rpc, h) <==> h <= 0 && (rpc == "" || rpc !in config.skipMethods)
      ensures HasWebsocket() <==> "wss://" <= config.streamingUrl || "ws://" <= config.streamingUrl
      ensures healthy && blockhead == None && connected
    {
      this.name := name;
      this.config := config;
      chain := ChainRefs.ParseChain(config.chain).value;
      healthy := true;
      blockhead := None;
      connected := true;
      skipMethods := {};
      new;
      for i := 0 to |config.skipMethods|
        invariant healthy && blockhead == None && connected
        invariant skipMethods == set k | 0 <= k < i :: config.skipMethods[k]
      {
        skipMethods := skipMethods + {config.skipMethods[i]};
      }
      assert skipMethods == set rpc | rpc in config.skipMethods;
    }

    function State(): EndpointState
      reads this
    {
      EndpointState(chain, config.weight, HasWebsocket(), skipMethods, healthy, blockhead)
    }

    predicate HasWebsocket() {
      WebsocketUrl(config.streamingUrl)
    }

    /** Can this endpoint serve the method at the height? A height that is not positive is no check at all. */
    predicate IsAvailable(rpc: string, minHeight: int)
      reads this
      ensures IsAvailable(rpc, minHeight) == Available(State(), rpc, minHeight)
    {
      if !healthy then false
      else if minHeight > 0 && (blockhead.None? || blockhead.value.height < minHeight) then false
      else if rpc != "" && rpc in skipMethods then false
      else true
    }
  }

  predicate WebsocketUrl(url: string) {
    "wss://" <= url || "ws://" <= url
  }

  /** What a configuration alone says about an endpoint. */
  function Fresh(config: EndpointConfig): EndpointState
    requires ChainRefs.ParseChain(config.chain).Some?
  {
    EndpointState(ChainRefs.ParseChain(config.chain).value, config.weight, WebsocketUrl(config.streamingUrl),
                  set rpc | rpc in config.skipMethods, true, None)
  }
}
