/**
  Compile-time configuration and return codes of the software UART
  (src/SWUART.h), and the small `Option` type the rest of the model uses
  where the C code has a NULL pointer or "no value".
 */
module SwuartConfig {

  datatype Option<T> = None | Some(value: T)

  /** n copies of x: an array of n zero-initialised records. */
  function Repeat<T>(x: T, n: nat): (s: seq<T>)
    ensures |s| == n && forall i :: 0 <= i < n ==> s[i] == x
  {
    if n == 0 then [] else Repeat(x, n - 1) + [x]
  }

  /** Maximum number of software UART channels. */
  const MAXUARTS: nat := 5
  /** Messages each RX buffer can hold. */
  const RXBUFFLEN: nat := 10
  /** Messages each TX buffer can hold. */
  const TXBUFFLEN: nat := 10
  /** Timer ticks (quanta) per line bit. */
  const BITQUANTI: nat := 5
  /** The quantum inside a bit at which the receiver samples; the header demands it be below BITQUANTI. */
  const SMPQUANTUM: nat := 2

  /** The outcome of an API call: `Ok` is the header's 0, every other value one of its error codes. */
  datatype Status = Ok | NoInit | NameErr | TxUsed | FullBuff | EmptyBuff | ParErr | StopErr

  /** The integer each status is returned as. */
  function Code(s: Status): (c: nat)
    ensures c <= 7
    ensures c == 0 <==> s == Ok
    ensures FromCode(c) == Some(s)
  {
    match s
    case Ok => 0
    case NoInit => 1
    case NameErr => 2
    case TxUsed => 3
    case FullBuff => 4
    case EmptyBuff => 5
    case ParErr => 6
    case StopErr => 7
  }

  /** Reads a returned integer back as a status; None for an integer no call returns. */
  function FromCode(c: int): (s: Option<Status>)
    ensures s.Some? <==> 0 <= c <= 7
  {
    if c == 0 then Some(Ok)
    else if c == 1 then Some(NoInit)
    else if c == 2 then Some(NameErr)
    else if c == 3 then Some(TxUsed)
    else if c == 4 then Some(FullBuff)
    else if c == 5 then Some(EmptyBuff)
    else if c == 6 then Some(ParErr)
    else if c == 7 then Some(StopErr)
    else None
  }

  /** The codes are pairwise distinct: a caller can tell every outcome from the integer alone. */
  lemma CodesDistinct(s: Status, t: Status)
    ensures Code(s) == Code(t) <==> s == t
  {
    assert FromCode(Code(s)) == Some(s) && FromCode(Code(t)) == Some(t);
  }
}
