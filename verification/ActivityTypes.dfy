/** The values the activity store exchanges with its callers. */
module ActivityTypes {
  import opened Common

  datatype ActivityType = OnchainType | LightningType

  datatype PaymentType = Sent | Received

  datatype PaymentState = Pending | Succeeded | Failed

  datatype ActivityFilter = AllActivities | LightningOnly | OnchainOnly

  datatype SortDirection = Asc | Desc

  datatype OnchainActivity = OnchainActivity(
    id: string,
    txType: PaymentType,
    txId: string,
    value: u64,
    fee: u64,
    feeRate: u64,
    address: string,
    confirmed: bool,
    timestamp: u64,
    isBoosted: bool,
    isTransfer: bool,
    doesExist: bool,
    confirmTimestamp: Option<u64>,
    channelId: Option<string>,
    transferTxId: Option<string>,
    createdAt: Option<u64>,
    updatedAt: Option<u64>)

  datatype LightningActivity = LightningActivity(
    id: string,
    txType: PaymentType,
    status: PaymentState,
    value: u64,
    fee: Option<u64>,
    invoice: string,
    message: string,
    timestamp: u64,
    preimage: Option<string>,
    createdAt: Option<u64>,
    updatedAt: Option<u64>)

  datatype Activity = Onchain(onchain: OnchainActivity) | Lightning(lightning: LightningActivity) {

    function Id(): string {
      match this
      case Onchain(o) => o.id
      case Lightning(l) => l.id
    }

    function Type(): ActivityType {
      match this
      case Onchain(_) => OnchainType
      case Lightning(_) => LightningType
    }

    function TxType(): PaymentType {
      match this
      case Onchain(o) => o.txType
      case Lightning(l) => l.txType
    }

    function Timestamp(): u64 {
      match this
      case Onchain(o) => o.timestamp
      case Lightning(l) => l.timestamp
    }

    function CreatedAt(): Option<u64> {
      match this
      case Onchain(o) => o.createdAt
      case Lightning(l) => l.createdAt
    }

    /** The same activity under the identity and clock columns the database assigns. */
    function Stamped(id: string, createdAt: u64, updatedAt: u64): Activity {
      match this
      case Onchain(o) =>
        Onchain(o.(id := id, createdAt := Some(createdAt), updatedAt := Some(updatedAt)))
      case Lightning(l) =>
        Lightning(l.(id := id, createdAt := Some(createdAt), updatedAt := Some(updatedAt)))
    }
  }

  /** Why a single SQL statement is refused. */
  datatype SqlError =
    | BindOutOfRange        // a u64 above the signed 64-bit range cannot be bound
    | CheckViolation
    | UniqueViolation
    | ForeignKeyViolation
    | RaisedAbort           // RAISE(ABORT, ...) in a trigger

  datatype Table = Activities | OnchainTable | LightningTable | Tags

  datatype ActivityError =
    | InsertError(table: Table, cause: SqlError)
    | DataError(detail: DataFault)
    | RetrievalError

  datatype DataFault =
    | EmptyId
    | NoActivityFound
    | DoesNotExist(id: string)
    | StatementFailed(table: Table, cause: SqlError)
    | RowNotReadable
}
