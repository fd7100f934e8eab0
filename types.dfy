/** Scalar types, the Action/Side/ErrorCode enumerations and their character
    codecs of the order book feed (namespace ex::type). */
module Types {

  /** Quantity is an unsigned 32-bit integer. */
  const QUANTITY_BOUND: int := 0x1_0000_0000
  type Quantity = q: int | 0 <= q < QUANTITY_BOUND

  /** ProductId and OrderId are unsigned 64-bit integers. */
  const ID_BOUND: int := 0x1_0000_0000_0000_0000
  type ProductId = x: int | 0 <= x < ID_BOUND
  type OrderId = x: int | 0 <= x < ID_BOUND

  /** Prices are only ever compared, so they are modelled as integer ticks. */
  type Price = int

  /** Subtraction of two unsigned 32-bit values, wrapping modulo 2^32. */
  function WrappingSub(a: Quantity, b: Quantity): (r: Quantity)
    ensures b <= a ==> r == a - b
    ensures a < b ==> r == a - b + QUANTITY_BOUND
  {
    (a - b) % QUANTITY_BOUND
  }

  // ---------------------------------------------------------------- Action

  datatype Action = New | Amend | Cancel | Trade | Unknown

  /** The character each Action enumerator is declared with. */
  function ActionCode(a: Action): char
  {
    match a
    case New => 'N'
    case Amend => 'M'
    case Cancel => 'R'
    case Trade => 'X'
    case Unknown => '?'
  }

  /** Writing an Action emits its code character. */
  function WriteAction(a: Action): (s: string)
    ensures |s| == 1 && s[0] == ActionCode(a)
  {
    [ActionCode(a)]
  }

  /** Reading an Action from one character: the four known codes map back to
      their enumerator, everything else (the '?' code included) to Unknown. */
  function ReadAction(c: char): (a: Action)
    ensures a != Action.Unknown <==> c in {'N', 'M', 'R', 'X'}
    ensures a != Action.Unknown ==> ActionCode(a) == c
  {
    match c
    case 'N' => New
    case 'M' => Amend
    case 'R' => Cancel
    case 'X' => Trade
    case _ => Action.Unknown
  }

  /** The five Action codes are pairwise distinct. */
  lemma ActionCodeInjective(a: Action, b: Action)
    ensures ActionCode(a) == ActionCode(b) ==> a == b
  {
  }

  /** Reading back what was written yields the same Action, Unknown included. */
  lemma ActionRoundTrip(a: Action)
    ensures ReadAction(WriteAction(a)[0]) == a
  {
  }

  // ------------------------------------------------------------------ Side

  datatype Side = Buy | Sell | Unknown

  /** The character each Side enumerator is declared with. */
  function SideCode(s: Side): char
  {
    match s
    case Buy => 'B'
    case Sell => 'S'
    case Unknown => '?'
  }

  /** Writing a Side emits its code character. */
  function WriteSide(s: Side): (t: string)
    ensures |t| == 1 && t[0] == SideCode(s)
  {
    [SideCode(s)]
  }

  /** Reading a Side from one character: 'B' and 'S' are Buy and Sell,
      everything else is Unknown. */
  function ReadSide(c: char): (s: Side)
    ensures s != Side.Unknown <==> c in {'B', 'S'}
    ensures s != Side.Unknown ==> SideCode(s) == c
  {
    match c
    case 'B' => Buy
    case 'S' => Sell
    case _ => Side.Unknown
  }

  /** The three Side codes are pairwise distinct. */
  lemma SideCodeInjective(a: Side, b: Side)
    ensures SideCode(a) == SideCode(b) ==> a == b
  {
  }

  /** Reading back what was written yields the same Side, Unknown included. */
  lemma SideRoundTrip(s: Side)
    ensures ReadSide(WriteSide(s)[0]) == s
  {
  }

  // ------------------------------------------------------------- ErrorCode

  datatype ErrorCode =
    | Ok
    | InvalidOrderId
    | InvalidProductId
    | DuplicateOrderId
    | DuplicateProductId
    | InvalidPrice
    | InvalidQuantity
    | CorruptMessage
    | Unknown

  /** Every ErrorCode, in declaration order. */
  const AllErrorCodes: seq<ErrorCode> := [
    Ok, InvalidOrderId, InvalidProductId, DuplicateOrderId, DuplicateProductId,
    InvalidPrice, InvalidQuantity, CorruptMessage, ErrorCode.Unknown]

  /** The underlying value of each enumerator: 0 through 7 by position, and
      the character '?' for Unknown. */
  function ErrorCodeValue(e: ErrorCode): int
  {
    match e
    case Ok => 0
    case InvalidOrderId => 1
    case InvalidProductId => 2
    case DuplicateOrderId => 3
    case DuplicateProductId => 4
    case InvalidPrice => 5
    case InvalidQuantity => 6
    case CorruptMessage => 7
    case Unknown => '?' as int
  }

  /** The message printed for each ErrorCode. */
  function ErrorMessage(e: ErrorCode): (m: string)
    ensures m == "No Error" <==> e == Ok
    ensures m == "Unknown Error" <==> e == ErrorCode.Unknown
  {
    match e
    case Ok => "No Error"
    case InvalidOrderId => "Invalid OrderID Error"
    case InvalidProductId => "Invalid ProductID Error"
    case DuplicateOrderId => "Duplicate OrderID Error"
    case DuplicateProductId => "Duplicate ProductID Error"
    case InvalidPrice => "Invalid Price Error"
    case InvalidQuantity => "Invalid Quantity Error"
    case CorruptMessage => "Corrupt Message Received Error"
    case Unknown => "Unknown Error"
  }

  /** ErrorCode has exactly nine enumerators with distinct values. */
  lemma ErrorCodesEnumerated(e: ErrorCode)
    ensures |AllErrorCodes| == 9 && e in AllErrorCodes
    ensures forall i, j :: 0 <= i < j < |AllErrorCodes| ==>
              ErrorCodeValue(AllErrorCodes[i]) != ErrorCodeValue(AllErrorCodes[j])
  {
  }

  /** The nine messages are pairwise distinct, so a message identifies its code. */
  lemma ErrorMessageInjective(a: ErrorCode, b: ErrorCode)
    ensures ErrorMessage(a) == ErrorMessage(b) ==> a == b
  {
  }
}
