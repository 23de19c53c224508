/**
 * Shared error and result types of the four compiler stages.
 *
 * Every way in which a stage of the original program fails to produce a
 * value (a thrown TypeError, a loop that never ends) is represented here
 * by an explicit error value.
 */
module Common {

  /** The first failure a stage meets, tagged with the stage it comes from. */
  datatype Error =
      /** Tokenizer: a character that is no parenthesis, letter, whitespace or digit. */
    | UnrecognizedChar(ch: char)
      /** Parser: a token was needed but the token sequence had ended. */
    | UnexpectedEndOfInput
      /** Parser: the token at `pos` cannot start an expression. */
    | UnexpectedToken(pos: nat)

  datatype Result<T> = Ok(value: T) | Err(error: Error)

  datatype Option<T> = None | Some(value: T)

  /** `xs` in front of the elements of a successful result; errors pass through. */
  function Prepend<T>(xs: seq<T>, r: Result<seq<T>>): Result<seq<T>> {
    match r
    case Ok(rest) => Ok(xs + rest)
    case Err(e) => Err(e)
  }

  lemma PrependNothing<T>(r: Result<seq<T>>)
    ensures Prepend([], r) == r
  {
    if r.Ok? { assert [] + r.value == r.value; }
  }

  lemma PrependTwice<T>(a: seq<T>, b: seq<T>, r: Result<seq<T>>)
    ensures Prepend(a, Prepend(b, r)) == Prepend(a + b, r)
  {
    if r.Ok? { assert a + (b + r.value) == (a + b) + r.value; }
  }
}
