/** The plain values that the gateway passes around: block heads, chain references, statuses, endpoint configuration. */
module Types {

  datatype Option<+T> = None | Some(value: T)

  datatype Block = Block(height: int, hash: string)

  datatype ChainRef = ChainRef(ns: string, network: string)

  /** What one poll of one endpoint reports; `blockhead` is None when the poll saw no block. */
  datatype ChainStatus = ChainStatus(endpointName: string, chain: ChainRef, healthy: bool, blockhead: Option<Block>)

  datatype EndpointConfig = EndpointConfig(chain: string, weight: int, streamingUrl: string, skipMethods: seq<string>)

  /** A JSON-RPC request, up to what identifies its answer. */
  datatype Request = Request(rpc: string, params: string)

  /** The key a request is cached under; prefix and request can be told from the key. */
  datatype CacheKey = CacheKey(prefix: string, request: Request)
}
