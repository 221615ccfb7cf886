/** src/checks.ts: argument guards that throw on a bad number.  Numbers are exact reals
    here; IEEE-754 special values are not part of this model. */
module Checks {

  /** The error each guard throws; the message text embeds the argument name. */
  datatype CheckError = MustBeNonNegative(name: string, got: real)
                      | MustBeInteger(name: string, got: real)
                      | MustBeNonZero(name: string)

  datatype Check = Pass | Fail(error: CheckError)

  /** The real `n` stands for, so that "is an integer" can be said with a witness. */
  function Whole(n: int): real
  {
    n as real
  }

  /** `isPositive`: despite its name it only rejects negatives, as its message says. */
  function IsPositive(x: real, name: string): (r: Check)
    ensures r.Pass? <==> x >= 0.0
    ensures r.Fail? ==> r.error == MustBeNonNegative(name, x)
  {
    if x < 0.0 then Fail(MustBeNonNegative(name, x)) else Pass
  }

  /** `isInteger`: `Number.isInteger` on an exact number. */
  function IsInteger(x: real, name: string): (r: Check)
    ensures r.Pass? <==> exists n: int :: Whole(n) == x
    ensures r.Fail? ==> r.error == MustBeInteger(name, x)
  {
    if x.Floor as real != x then
      Fail(MustBeInteger(name, x))
    else
      assert Whole(x.Floor) == x;
      Pass
  }

  /** `isNonZero`. */
  function IsNonZero(x: real, name: string): (r: Check)
    ensures r.Pass? <==> x != 0.0
    ensures r.Fail? ==> r.error == MustBeNonZero(name)
  {
    if x == 0.0 then Fail(MustBeNonZero(name)) else Pass
  }

  /** Guards run one after the other: the first failure is the one thrown. */
  function AndThen(first: Check, second: Check): (r: Check)
  {
    if first.Fail? then first else second
  }

  /** The guard sequence of `splitStringByLength` (src/embed.ts): integer, then
      non-negative, then non-zero. */
  function CheckMaxLength(x: real, name: string): Check
  {
    AndThen(IsInteger(x, name), AndThen(IsPositive(x, name), IsNonZero(x, name)))
  }

  /** `isPositive` accepts zero. */
  lemma IsPositiveAcceptsZero(name: string)
    ensures IsPositive(0.0, name) == Pass
    ensures IsNonZero(0.0, name).Fail?
  {
  }

  /** The three guards together admit exactly the integers from 1 up, and a value that
      is rejected is reported by the first guard it breaks. */
  lemma MaxLengthGuardAdmitsPositiveIntegers(x: real, name: string)
    ensures CheckMaxLength(x, name).Pass? <==> exists n: int :: n >= 1 && Whole(n) == x
    ensures CheckMaxLength(x, name).Fail? && x < 0.0 && x.Floor as real == x ==>
              CheckMaxLength(x, name).error == MustBeNonNegative(name, x)
    ensures CheckMaxLength(x, name).Fail? && x.Floor as real != x ==>
              CheckMaxLength(x, name).error == MustBeInteger(name, x)
  {
    if CheckMaxLength(x, name).Pass? {
      var n :| Whole(n) == x;
      assert n >= 1;
    }
  }
}
