/** The provider, configuration and error types of the canister's interface. */
module RpcTypes {
  import opened Common

  datatype EthMainnetService = Alchemy | Ankr | BlockPi | PublicNode | Cloudflare | Llama

  datatype EthSepoliaService = Alchemy | Ankr | BlockPi | PublicNode | Sepolia

  datatype L2MainnetService = Alchemy | Ankr | BlockPi | PublicNode | Llama

  datatype HttpHeader = HttpHeader(name: string, value: string)

  datatype RpcApi = RpcApi(url: string, headers: Option<seq<HttpHeader>>)

  /** How a caller names one provider. */
  datatype RpcService =
    | Provider(id: u64)
    | Custom(api: RpcApi)
    | EthMainnet(mainnet: EthMainnetService)
    | EthSepolia(sepolia: EthSepoliaService)
    | ArbitrumOne(arbitrum: L2MainnetService)
    | BaseMainnet(base: L2MainnetService)
    | OptimismMainnet(optimism: L2MainnetService)

  /** A provider the canister knows by name and ranks by its recent successes. */
  datatype SupportedRpcService =
    | EthMainnet(mainnet: EthMainnetService)
    | EthSepolia(sepolia: EthSepoliaService)
    | ArbitrumOne(arbitrum: L2MainnetService)
    | BaseMainnet(base: L2MainnetService)
    | OptimismMainnet(optimism: L2MainnetService)

  /** `None` for a network's services asks for the default providers. */
  datatype RpcServices =
    | Custom(chainId: u64, apis: seq<RpcApi>)
    | EthMainnet(mainnet: Option<seq<EthMainnetService>>)
    | EthSepolia(sepolia: Option<seq<EthSepoliaService>>)
    | ArbitrumOne(arbitrum: Option<seq<L2MainnetService>>)
    | BaseMainnet(base: Option<seq<L2MainnetService>>)
    | OptimismMainnet(optimism: Option<seq<L2MainnetService>>)

  datatype ConsensusStrategy = Equality | Threshold(total: Option<u8>, min: u8)

  /** The five ways a configuration is refused; each stands for one message. */
  datatype ConfigFault =
    | MinIsZero
    | TotalUnspecified
    | MinAboveTotal(min: u8, total: u8)
    | TotalAboveSupported(total: u8, supported: nat)
    | MinAboveSpecified(min: u8, specified: nat)
    | TotalNotSpecified(total: u8, specified: nat)

  datatype ProviderError =
    | NoPermission
    | TooFewCycles(expected: nat, received: nat)
    | ProviderNotFound
    | MissingRequiredProvider
    | InvalidRpcConfig(fault: ConfigFault)

  datatype LegacyRejectionCode =
    NoError | SysFatal | SysTransient | DestinationInvalid | CanisterReject | CanisterError | Unknown

  datatype HttpOutcallError =
    | IcError(code: LegacyRejectionCode, message: string)
    | InvalidHttpJsonRpcResponse(status: nat, body: string, parsingError: Option<string>)

  datatype ValidationError = CustomValidation(reason: string) | InvalidHex(hex: string)

  datatype RpcError =
    | ProviderError(provider: ProviderError)
    | HttpOutcallError(outcall: HttpOutcallError)
    | JsonRpcError(code: int, message: string)
    | ValidationError(validation: ValidationError)

  type RpcResult<T> = Result<T, RpcError>
}
