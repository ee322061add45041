/** The exceptions the modelled code throws, as values.
    Every operation that can throw returns a `Result` or an `Outcome` instead. */
module Errors {

  /** The fixed vocabulary of messages a ParserException carries
      (query lexer and order-by compiler); no other parser message exists. */
  datatype ParserMessage =
    | UnterminatedString
    | InvalidOperator
    | SyntaxError
    | InvalidNumber
    | EmptyOrderBy
    | InvalidQuery
  {
    /** The exact message text of the exception. */
    function Text(): string {
      match this
      case UnterminatedString => "Unterminated string"
      case InvalidOperator => "Invalid operator"
      case SyntaxError => "Syntax error"
      case InvalidNumber => "Invalid number"
      case EmptyOrderBy => "Empty order by clause"
      case InvalidQuery => "Invalid query"
    }
  }

  /** One constructor per exception class thrown by the modelled code. */
  datatype Error =
    | ParserError(parser: ParserMessage)   // Exception\ParserException
    | ValueError(message: string)          // ValueError
    | RuntimeError(message: string)        // Exception\RuntimeException
    | NoSuchField(message: string)         // Exception\NoSuchField
    | GenericException(message: string)    // plain \Exception
    | TypeError(message: string)           // PHP's implicit TypeError on a bad return type
    | PhpError(message: string)            // PHP's Error, e.g. a method called on an array

  datatype Result<+T> = Ok(value: T) | Err(error: Error) {
    predicate IsFailure() { Err? }
    function PropagateFailure<U>(): Result<U> requires Err? { Err(error) }
    function Extract(): T requires Ok? { value }
  }

  /** A PHP value that may be null. */
  datatype Option<+T> = None | Some(value: T)

  /** The result of an operation that returns nothing (`void`) but may throw. */
  datatype Outcome = Pass | Fail(error: Error)

  lemma ParserMessagesDistinct(a: ParserMessage, b: ParserMessage)
    ensures a != b ==> a.Text() != b.Text()
  {
    if a != b {
      match a
      case UnterminatedString => assert a.Text()[0] == 'U';
      case InvalidOperator => assert a.Text()[8] == 'o';
      case SyntaxError => assert a.Text()[0] == 'S';
      case InvalidNumber => assert a.Text()[8] == 'n';
      case EmptyOrderBy => assert a.Text()[0] == 'E';
      case InvalidQuery => assert a.Text()[8] == 'q';
    }
  }
}
