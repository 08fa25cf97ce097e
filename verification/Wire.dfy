/** Frames between the agent and the server, and the values they carry. */
module Wire {
  import opened Common

  /** One fill. Decimal strings are carried as the numbers they denote. */
  datatype Fill = Fill(
    ClientOrderID: string,
    ExchangeOrderID: string,
    Quantity: real,
    Price: real,
    FeeAsset: string,
    FeeAmount: real,
    FilledAtExchangeMs: int,
    SlippageBps: real,
    TradeID: int)

  /** The fill under the name of its order. */
  function Named(f: Fill, id: string, exchangeOrderID: string): Fill {
    f.(ClientOrderID := id, ExchangeOrderID := exchangeOrderID)
  }

  function NamedFills(fs: seq<Fill>, id: string, exchangeOrderID: string): seq<Fill> {
    seq(|fs|, i requires 0 <= i < |fs| => Named(fs[i], id, exchangeOrderID))
  }

  datatype Side = Buy | Sell | OtherSide

  /** A decimal field of a command: absent, unparsable, or a number. */
  datatype Decimal = Absent | Malformed | Parsed(value: real)

  datatype TradeCommand = TradeCommand(
    ClientOrderID: string,
    Side: Side,
    IsLimit: bool,
    Quantity: Decimal,
    LimitPrice: Decimal,
    ValidUntilMs: int,
    NowMsAtSaaS: int)

  datatype AckStatus =
    AckAccepted | AckRejected | AckExpired | AckDuplicatePending | AckDuplicateTerminal

  datatype OrderStatus = OrderFilled | OrderPartialFilled | OrderCancelled | OrderRejected

  datatype AgentError = AgentError(Code: string, OccurredAtMs: int)

  datatype Frame =
    | HelloFrame
    | AuthFrame
    | StateSyncResponseFrame
    | AckFrame(ClientOrderID: string, AckStatus: AckStatus)
    | ErrorFrame(code: string)
    | OrderUpdateFrame(
        ClientOrderID: string, ExchangeOrderID: string, Status: OrderStatus, Cumulative: real, Fills: seq<Fill>)
    | DeltaReportFrame(Fills: seq<Fill>, Errors: seq<AgentError>)

  datatype AuthFailCode =
    | InvalidToken | Revoked | SchemaMismatch | AccountMismatch | EnvironmentMismatch | UnknownCode

  /** What the server sends during the handshake. */
  datatype ServerFrame =
    | AuthRequired
    | AuthOk(frozen: bool)
    | AuthFail(code: AuthFailCode)
    | StateSyncRequest
    | OtherFrame
    | ReadError
}
