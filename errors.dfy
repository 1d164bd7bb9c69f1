/** Values shared by every part of the model: bytes, optional values, results,
    and the errors the downloader and the bridged transport report. */
module Errors {

  /** One octet of a response body or an archive entry. */
  newtype byte = b: int | 0 <= b < 256

  datatype Option<+T> = None | Some(value: T)

  /** A Go `(value, error)` pair in which exactly one half is meaningful. */
  datatype Result<+T> = Ok(value: T) | Err(error: Error)

  /** What `ctx.Err()` returns once a context is done. */
  datatype ContextError = Canceled | DeadlineExceeded

  /** Every error value the modelled code creates or forwards. */
  datatype Error =
    | NoAssets                        // errors.New("no assets")
    | InvalidStatus(code: int)        // fmt.Errorf("invalid status code %d", code)
    | NoFilesFound                    // errors.New("no files found")
    | TargetNotFound                  // errors.New("target file not found")
    | EndOfFile                       // io.EOF
    | ReaderClosed                    // errClosed of the bridged transport
    | FetchFailed(detail: string)     // fmt.Errorf("net/http: fetch() failed: %s", detail)
    | ReaderFailed(message: string)   // errors.New(jsError.message) from a body read
    | Context(reason: ContextError)   // ctx.Err()
    | Foreign(message: string)        // an error produced by a collaborator (HTTP client, JSON or zip decoder)

  /** The text `Error()` returns for each error. */
  function Message(e: Error): (r: string)
    ensures !e.ReaderFailed? && !e.Foreign? ==> r != ""
    ensures e.InvalidStatus? ==>
      |r| > 20 && r[..20] == "invalid status code " && r[20..] == Decimal(e.code)
    ensures e.FetchFailed? ==>
      |r| >= 26 && r[..26] == "net/http: fetch() failed: " && r[26..] == e.detail
    ensures e.ReaderFailed? ==> r == e.message
  {
    match e
    case NoAssets => "no assets"
    case InvalidStatus(code) => "invalid status code " + Decimal(code)
    case NoFilesFound => "no files found"
    case TargetNotFound => "target file not found"
    case EndOfFile => "EOF"
    case ReaderClosed => "net/http: reader is closed"
    case FetchFailed(detail) => "net/http: fetch() failed: " + detail
    case ReaderFailed(message) => message
    case Context(Canceled) => "context canceled"
    case Context(DeadlineExceeded) => "context deadline exceeded"
    case Foreign(message) => message
  }

  predicate IsDigit(c: char) { '0' <= c <= '9' }

  /** The `%d` rendering of a natural number: at least one digit and digits only. */
  function NatDecimal(n: nat): (r: string)
    ensures |r| > 0
    ensures forall i :: 0 <= i < |r| ==> IsDigit(r[i])
    ensures n > 0 ==> r[0] != '0'
    decreases n
  {
    if n < 10 then ["0123456789"[n]] else NatDecimal(n / 10) + ["0123456789"[n % 10]]
  }

  /** The number a string of digits denotes. */
  function DigitsValue(s: string): nat
    requires forall i :: 0 <= i < |s| ==> IsDigit(s[i])
  {
    if s == [] then 0
    else
      assert IsDigit(s[|s| - 1]);
      DigitsValue(s[..|s| - 1]) * 10 + (s[|s| - 1] as int - '0' as int)
  }

  /** Reading the digits back gives the number rendered. */
  lemma {:induction false} NatDecimalRoundTrip(n: nat)
    ensures DigitsValue(NatDecimal(n)) == n
    decreases n
  {
    var r := NatDecimal(n);
    if n >= 10 {
      assert r[..|r| - 1] == NatDecimal(n / 10);
      NatDecimalRoundTrip(n / 10);
    }
  }

  /** The `%d` rendering of an integer: a minus sign exactly for a negative
      number, then the digits of its magnitude. */
  function Decimal(n: int): (r: string)
    ensures |r| > 0 && (r[0] == '-' <==> n < 0)
    ensures n >= 0 ==> forall i :: 0 <= i < |r| ==> IsDigit(r[i])
  {
    if n < 0 then "-" + NatDecimal(-n) else NatDecimal(n)
  }

  /** The "invalid status code" message names the status: its digits read back
      as the code. */
  lemma InvalidStatusNamesCode(code: nat)
    ensures var m := Message(InvalidStatus(code));
      && m[..20] == "invalid status code "
      && (forall i :: 20 <= i < |m| ==> IsDigit(m[i]))
      && DigitsValue(m[20..]) == code
  {
    NatDecimalRoundTrip(code);
  }
}
