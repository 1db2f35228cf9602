// The values the mock venue exchanges with its callers. The SDK headers that
// declare them are not part of the repository; fields the venue never touches
// are omitted, and defaults are zero or empty.
module VenueTypes {

  datatype Option<+T> = None | Some(value: T)

  datatype ErrorCode =
    | Success
    | ConnectionError
    | NotFound
    | SystemError
    | InternalError
    | Timeout
    | NotInitialized

  datatype Side = Buy | Sell | OtherSide(code: int)

  datatype OrderStatus = Unknown | NotTradedQueueing | Filled | Canceled | Rejected

  datatype SubmitStatus = NoSubmitStatus | InsertAccepted | CancelAccepted

  datatype OrderRequest = OrderRequest(
    clientOrderId: string,
    instrument: string,
    market: int,
    brokerOrderId: nat,   // 0 asks the venue to number the order
    price: real,
    volume: int,
    side: Side,
    positionEffect: int,
    businessType: int)

  datatype CancelOrderRequest = CancelOrderRequest(brokerOrderId: nat, orderId: string)

  datatype Order = Order(
    clientOrderId: string,
    orderId: string,
    instrument: string,
    market: int,
    brokerOrderId: nat,
    price: real,
    volume: int,
    leftVolume: int,
    tradedVolume: int,
    tradeAmount: real,
    side: Side,
    positionEffect: int,
    businessType: int,
    status: OrderStatus,
    submitStatus: SubmitStatus)

  datatype Trade = Trade(
    tradeId: string,
    orderId: string,
    brokerOrderId: nat,
    clientOrderId: string,
    instrument: string,
    market: int,
    price: real,
    volume: int,
    tradeAmount: real,
    side: Side,
    positionEffect: int,
    businessType: int)

  datatype Direction = Net | Long | Short

  datatype Position = Position(instrument: string, market: int, direction: Direction, totalVolume: int)
}
