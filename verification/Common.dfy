/** Outcome types and the two slot names shared by every part of the model. */
module Common {

  datatype Option<+T> = None | Some(value: T)

  /** A raised exception is an `Err`; the message is not part of the model. */
  datatype Result<+T> = Ok(value: T) | Err {
    predicate IsFailure() {
      Err?
    }

    function PropagateFailure<U>(): Result<U>
      requires Err?
    {
      Err
    }

    function Extract(): T
      requires Ok?
    {
      value
    }
  }

  datatype Slot = A | B {
    function Other(): Slot {
      if this == A then B else A
    }
  }

  /** `require(condition, ...)`: continue or raise. */
  function Need(condition: bool): (r: Result<()>) {
    if condition then Ok(()) else Err
  }

  /** Sixty-four lower-case hexadecimal digits. */
  predicate Hash(s: string) {
    |s| == 64 && forall i :: 0 <= i < 64 ==> '0' <= s[i] <= '9' || 'a' <= s[i] <= 'f'
  }
}
