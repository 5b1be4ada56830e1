/** Failure values that replace the exceptions and `System.exit` calls of the prover. */
module Results {

  datatype Option<T> = None | Some(value: T)

  /** Every way a computation of the prover can stop without an answer. */
  datatype Error =
    | DivisionByZero            // a BigFraction division by zero (ArithmeticException)
    | IndexOutOfRange           // an array access outside its bounds
    | InvalidInstance           // knapsack sizes that are not positive and pairwise distinct
    | NoTypeForClass            // computeTypeOfRFromClass found no type with needs == k
    | FirstConstraintViolated   // y1 + target < w1
    | SecondConstraintViolated  // y2/2 + target < w1
    | Q3WeightMismatch          // the hand-built q3 pattern does not weigh weightOfQ3
    | Y1Negative | Y1TooLarge | Y2Negative | Y3Negative | Y3TooLarge
    | SizesNotSorted
    | MediumGapTooLarge
    | DuplicateRedSpace
    | RedSpaceNotSorted
    | WrongBluefit
    | BluefitLeavesTooMuch      // 1 - ub * bluefit > ub
    | LeavesTooLow | LeavesTooHigh
    | RedSizeTooLarge           // a type with red items is above the largest red space
    | NeedsTooLow | NeedsTooHigh
    | RedfitNotZero
    | SmallestTypeTooLarge
    | RedFractionOutOfRange
    | InfeasibleWithoutR        // case k = K+1 has a pattern heavier than the target
    | InfeasibleCase(k: int)    // case k has a pattern heavier than the target
    | NoY3Found(k: int)         // the bisection for case k gave up

  datatype Result<T> = Ok(value: T) | Err(error: Error)

  /** The verdict of a check that returns nothing when it passes. */
  datatype Outcome = Pass | Fail(error: Error)

  /** Java's `intValue()` on an exact fraction: truncation toward zero. */
  function Truncate(x: real): (r: int)
    ensures 0.0 <= x ==> r as real <= x < r as real + 1.0
    ensures x < 0.0 ==> x <= r as real <= 0.0 && r as real - 1.0 < x
  {
    if x >= 0.0 then x.Floor else -((-x).Floor)
  }
}
