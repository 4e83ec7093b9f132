/** The error records of the calculator (errors.rs): three record types with
    the same shape (a message and a source position), the error kind that
    tags them, and the combined TCalcError that each converts into. */
module Errors {

  /** The file name of the default position. */
  const UnknownFile: string := "unknown"

  /** InputPosition: where in the input an error or token was found. The
      parser's own two-field Position (line, chr) is the same record with the
      default file name; see At. */
  datatype InputPosition = InputPosition(file: string, line: nat, chr: nat)

  /** InputPosition::default */
  const DefaultPosition: InputPosition := InputPosition(UnknownFile, 0, 0)

  /** InputPosition::is_default: the file is "unknown" and line and column are 0. */
  function IsDefault(p: InputPosition): (b: bool)
    ensures b <==> p == DefaultPosition
  {
    p.file == UnknownFile && p.line == 0 && p.chr == 0
  }

  /** The parser's Position::new(line, chr): a position with no file name of its own. */
  function At(line: nat, chr: nat): (p: InputPosition)
    ensures p.line == line && p.chr == chr
    ensures IsDefault(p) <==> line == 0 && chr == 0
  {
    InputPosition(UnknownFile, line, chr)
  }

  /** Which of the three record types an error is; also TCalcErrorKind. */
  datatype ErrorKind = SyntaxError | ConversionError | InvalidOperationError

  /** The numeric code of each kind (the discriminants of TCalcErrorKind). */
  function Code(k: ErrorKind): (c: int)
    ensures 10 <= c <= 12
    ensures c == 10 <==> k == SyntaxError
    ensures c == 11 <==> k == ConversionError
    ensures c == 12 <==> k == InvalidOperationError
  {
    match k
    case SyntaxError => 10
    case ConversionError => 11
    case InvalidOperationError => 12
  }

  /** Distinct kinds have distinct codes. */
  lemma CodeIsInjective(a: ErrorKind, b: ErrorKind)
    ensures Code(a) == Code(b) ==> a == b
  {
  }

  /** A SyntaxError, ConversionError or InvalidOperationError record; `kind`
      says which of the three types it is. */
  datatype Error = Error(kind: ErrorKind, msg: string, position: InputPosition)

  /** `new`: the message with the default position. */
  function New(kind: ErrorKind, msg: string): (e: Error)
    ensures e.kind == kind && e.msg == msg
    ensures IsDefault(e.position)
  {
    Error(kind, msg, DefaultPosition)
  }

  /** `newp`: the message at the given position. */
  function NewP(kind: ErrorKind, msg: string, position: InputPosition): (e: Error)
    ensures e.kind == kind && e.msg == msg && e.position == position
  {
    Error(kind, msg, position)
  }

  /** `with_position`: the same error at another position. */
  function WithPosition(e: Error, position: InputPosition): (r: Error)
    ensures r.position == position
    ensures r.kind == e.kind && r.msg == e.msg
  {
    e.(position := position)
  }

  /** Replacing the position twice keeps only the second. */
  lemma WithPositionTwice(e: Error, p: InputPosition, q: InputPosition)
    ensures WithPosition(WithPosition(e, p), q) == WithPosition(e, q)
  {
  }

  /** TCalcError: the error type that every record converts into. */
  datatype TCalcError = TCalcError(msg: string, kind: ErrorKind, position: InputPosition)

  /** `From<SyntaxError>` (and the other two) `for TCalcError`. */
  function ToTCalcError(e: Error): (t: TCalcError)
    ensures t.msg == e.msg && t.kind == e.kind && t.position == e.position
  {
    TCalcError(e.msg, e.kind, e.position)
  }

  /** The conversion loses nothing: distinct records stay distinct. */
  lemma ToTCalcErrorIsInjective(a: Error, b: Error)
    ensures ToTCalcError(a) == ToTCalcError(b) ==> a == b
  {
  }

  /** TCalcError::with_position */
  function TCalcWithPosition(t: TCalcError, position: InputPosition): (r: TCalcError)
    ensures r.position == position && r.msg == t.msg && r.kind == t.kind
  {
    t.(position := position)
  }
}
